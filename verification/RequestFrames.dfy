/** The frames of a request (src/httpsession.cc): the chunks of DATA frames, the dispatch of the handler,
    and the end of the body, which only a DATA frame with END_STREAM signals. */
module RequestFrames {
  import opened Options
  import opened Sequences
  import opened RequestBodies

  /** Frames with their END_STREAM flags. */
  datatype Frame = HEADERS(endStream: bool) | DATA(endStream: bool)

  /** What `on_frame_recv_cb` does: dispatch the handler, and after that call `handle_body`. */
  datatype Reaction = Reaction(prepared: bool, dispatches: nat, endsBody: bool)

  ghost function ReactionTo(f: Frame, prepared: bool): Reaction {
    Reaction(prepared || f.DATA? || f.endStream,
             if !prepared && (f.DATA? || f.endStream) then 1 else 0,
             f.DATA? && f.endStream)
  }

  // ----- a request as a state machine -----------------------------------------------------

  /** Frames and reads of a request. `call`: what a handler dispatched by the frame reads at once.
      `Call`: a handler dispatched before begins to read. */
  datatype Input =
    | Headers(endStream: bool, call: Option<Reader>)
    | Data(chunks: seq<string>, endStream: bool, call: Option<Reader>)
    | Call(reader: Reader)

  /** `closed`: END_STREAM has come, after which nghttp2 delivers no frame. */
  datatype Stream = Stream(system: System, prepared: bool, closed: bool, dispatches: nat)

  const FRESH_STREAM := Stream(START, false, false, 0)

  ghost function FrameOf(i: Input): Frame
    requires !i.Call?
  {
    if i.Data? then DATA(i.endStream) else HEADERS(i.endStream)
  }

  ghost predicate Allowed(s: Stream, i: Input) {
    if i.Call? then s.prepared && s.system.reader == Unstarted else !s.closed
  }

  /** What the request sees: the chunks, then the handler's read, then the end. */
  ghost function Events(i: Input, prepared: bool): seq<Event> {
    if i.Call? then [Start(i.reader)]
    else (if i.Data? then Chunks(i.chunks) else []) + FrameEvents(FrameOf(i), i.call, prepared)
  }

  ghost function FrameEvents(f: Frame, call: Option<Reader>, prepared: bool): seq<Event> {
    var r := ReactionTo(f, prepared);
    (if r.dispatches > 0 && call.Some? then [Start(call.value)] else []) + (if r.endsBody then [End] else [])
  }

  ghost function Chunks(chunks: seq<string>): (es: seq<Event>)
    ensures End !in es && forall r :: Start(r) !in es
  {
    if chunks == [] then [] else [Chunk(chunks[0])] + Chunks(chunks[1..])
  }

  ghost function Step(s: Stream, i: Input): Stream {
    var system := After(s.system, Events(i, s.prepared));
    if i.Call? then s.(system := system)
    else
      var r := ReactionTo(FrameOf(i), s.prepared);
      Stream(system, r.prepared, s.closed || i.endStream, s.dispatches + r.dispatches)
  }

  ghost predicate IsInputRun(s: Stream, run: seq<Input>)
    decreases |run|
  {
    run == [] || (Allowed(s, run[0]) && IsInputRun(Step(s, run[0]), run[1..]))
  }

  ghost function AfterInputs(s: Stream, run: seq<Input>): Stream
    decreases |run|
  {
    if run == [] then s else AfterInputs(Step(s, run[0]), run[1..])
  }

  /** No reader before the dispatch; the end of the body only with the end of the stream. */
  ghost predicate Sound(s: Stream) {
    && (!s.prepared ==> s.system.reader == Unstarted)
    && (s.system.ended ==> s.closed)
  }

  /** All that the request sees in a run. */
  ghost function Trace(run: seq<Input>, prepared: bool): seq<Event> {
    if run == [] then []
    else
      var after := if run[0].Call? then prepared else ReactionTo(FrameOf(run[0]), prepared).prepared;
      Events(run[0], prepared) + Trace(run[1..], after)
  }

  /** The chunks of all DATA frames, in order. */
  ghost function Body(run: seq<Input>): string {
    if run == [] then "" else (if run[0].Data? then Joined(run[0].chunks) else "") + Body(run[1..])
  }

  ghost function Joined(chunks: seq<string>): string {
    if chunks == [] then "" else chunks[0] + Joined(chunks[1..])
  }

  /** A DATA frame with END_STREAM has come. */
  ghost predicate EndsWithData(run: seq<Input>) {
    exists i :: 0 <= i < |run| && run[i].Data? && run[i].endStream
  }

  lemma {:induction false} RunAppend(s: System, es: seq<Event>, fs: seq<Event>)
    ensures IsRun(s, es + fs)
       <==> IsRun(s, es) && IsRun(After(s, es), fs)
    ensures After(s, es + fs) == After(After(s, es), fs)
    decreases |es|
  {
    hide Next, Enabled;
    if es == [] {
      assert es + fs == fs;
    } else {
      RunAppend(Next(s, es[0]), es[1..], fs);
      assert (es + fs)[1..] == es[1..] + fs;
    }
  }

  lemma {:induction false} ReceivedAppend(es: seq<Event>, fs: seq<Event>)
    ensures Received(es + fs) == Received(es) + Received(fs)
  {
    hide Carried;
    if es == [] {
      assert es + fs == fs && "" + Received(fs) == Received(fs);
    } else {
      ReceivedAppend(es[1..], fs);
      assert (es + fs)[1..] == es[1..] + fs;
      Assoc(Carried(es[0]), Received(es[1..]), Received(fs));
    }
  }

  lemma {:induction false} ChunksRun(s: System, chunks: seq<string>)
    requires !s.ended
    ensures IsRun(s, Chunks(chunks))
    ensures var t := After(s, Chunks(chunks));
            !t.ended && (s.reader == Unstarted ==> t.reader == Unstarted)
    ensures Received(Chunks(chunks)) == Joined(chunks)
    decreases |chunks|
  {
    hide Next;
    if chunks != [] {
      NextHappens(s, Chunk(chunks[0]));
      ChunksRun(Next(s, Chunk(chunks[0])), chunks[1..]);
      assert Chunks(chunks)[1..] == Chunks(chunks[1..]);
    }
  }

  /** A step of the frames is a run of what the request sees. */
  lemma StepIsRun(s: Stream, i: Input)
    requires Sound(s) && Allowed(s, i)
    ensures IsRun(s.system, Events(i, s.prepared)) && Sound(Step(s, i))
  {
    hide Next;
    if i.Call? {
      NextHappens(s.system, Start(i.reader));
      OneEvent(s.system, Start(i.reader));
    } else {
      var chunks := if i.Data? then Chunks(i.chunks) else [];
      if i.Data? {
        ChunksRun(s.system, i.chunks);
      }
      FrameIsRun(After(s.system, chunks), FrameOf(i), i.call, s.prepared);
      RunAppend(s.system, chunks, FrameEvents(FrameOf(i), i.call, s.prepared));
    }
  }

  lemma OneEvent(s: System, e: Event)
    ensures IsRun(s, [e]) <==> Enabled(s, e)
    ensures After(s, [e]) == Next(s, e)
  {
    hide Next, Enabled;
    assert [e][1..] == [];
  }

  /** The dispatch, with what the handler reads, comes before the end. */
  lemma FrameIsRun(s: System, f: Frame, call: Option<Reader>, prepared: bool)
    requires !s.ended && (!prepared ==> s.reader == Unstarted)
    ensures var t := After(s, FrameEvents(f, call, prepared));
            && IsRun(s, FrameEvents(f, call, prepared))
            && (t.ended <==> f.DATA? && f.endStream)
            && (!prepared && !(f.DATA? || f.endStream) ==> t.reader == Unstarted)
  {
    hide Next;
    var r := ReactionTo(f, prepared);
    var starts := if r.dispatches > 0 && call.Some? then [Start(call.value)] else [];
    var ends := if r.endsBody then [End] else [];
    RunAppend(s, starts, ends);
    if starts != [] {
      NextHappens(s, starts[0]);
      OneEvent(s, starts[0]);
    }
    var t := After(s, starts);
    if ends != [] {
      NextHappens(t, End);
      OneEvent(t, End);
    }
  }

  lemma {:induction false} TraceIsRun(s: Stream, run: seq<Input>)
    requires Sound(s) && IsInputRun(s, run)
    ensures IsRun(s.system, Trace(run, s.prepared)) && Sound(AfterInputs(s, run))
    ensures AfterInputs(s, run).system == After(s.system, Trace(run, s.prepared))
    decreases |run|
  {
    hide Allowed, Sound, Events, IsRun, After;
    if run == [] {
      NothingRuns(s.system);
    } else {
      StepIsRun(s, run[0]);
      TraceIsRun(Step(s, run[0]), run[1..]);
      RunAppend(s.system, Events(run[0], s.prepared), Trace(run[1..], Step(s, run[0]).prepared));
    }
  }

  lemma NothingRuns(s: System)
    ensures IsRun(s, []) && After(s, []) == s
  {
  }

  lemma EventsSay(i: Input, prepared: bool)
    ensures End in Events(i, prepared) <==> i.Data? && i.endStream
    ensures Received(Events(i, prepared)) == if i.Data? then Joined(i.chunks) else ""
  {
    if !i.Call? {
      var chunks := if i.Data? then Chunks(i.chunks) else [];
      if i.Data? {
        ChunksRun(START, i.chunks);
      }
      ReceivedAppend(chunks, FrameEvents(FrameOf(i), i.call, prepared));
      NoChunkInFrame(FrameOf(i), i.call, prepared);
    }
  }

  lemma NoChunkInFrame(f: Frame, call: Option<Reader>, prepared: bool)
    ensures Received(FrameEvents(f, call, prepared)) == ""
  {
    var r := ReactionTo(f, prepared);
    ReceivedAppend(if r.dispatches > 0 && call.Some? then [Start(call.value)] else [],
                   if r.endsBody then [End] else []);
  }

  lemma {:induction false} TraceSays(run: seq<Input>, prepared: bool)
    ensures End in Trace(run, prepared) <==> EndsWithData(run)
    ensures Received(Trace(run, prepared)) == Body(run)
  {
    hide Events, ReactionTo, Received, Joined;
    if run == [] {
      NothingReceived();
    } else {
      var after := if run[0].Call? then prepared else ReactionTo(FrameOf(run[0]), prepared).prepared;
      EventsSay(run[0], prepared);
      TraceSays(run[1..], after);
      ReceivedAppend(Events(run[0], prepared), Trace(run[1..], after));
      EndsStep(run);
    }
  }

  lemma NothingReceived()
    ensures Received([]) == ""
  {
  }

  lemma EndsStep(run: seq<Input>)
    requires run != []
    ensures EndsWithData(run) <==> (run[0].Data? && run[0].endStream) || EndsWithData(run[1..])
  {
    if EndsWithData(run) {
      var i :| 0 <= i < |run| && run[i].Data? && run[i].endStream;
      assert i == 0 || run[1..][i - 1] == run[i];
    }
    if EndsWithData(run[1..]) {
      var i :| 0 <= i < |run[1..]| && run[1..][i].Data? && run[1..][i].endStream;
      assert run[i + 1] == run[1..][i];
    }
  }

  // ----- what a handler gets from the frames ----------------------------------------------

  /** The handler has begun to read in this way. */
  ghost predicate Begins(run: seq<Input>, reader: Reader) {
    Start(reader) in Trace(run, false)
  }

  /** The request sees the end exactly if a DATA frame with END_STREAM came, at most once, and after all
      the chunks. */
  lemma EndComesExactlyWhen(run: seq<Input>, i: nat, j: nat)
    requires IsInputRun(FRESH_STREAM, run)
    ensures var es := Trace(run, false);
            && (End in es <==> EndsWithData(run))
            && Received(es) == Body(run)
            && (i < |es| && j < |es| && es[i] == End && (es[j] == End || es[j].Chunk?) ==> j <= i)
  {
    TraceIsRun(FRESH_STREAM, run);
    TraceSays(run, false);
    var es := Trace(run, false);
    if i < j < |es| && es[i] == End {
      NothingAfterTheEnd(START, es, i, j);
    }
  }

  lemma Gets(run: seq<Input>, reader: Reader)
    requires IsInputRun(FRESH_STREAM, run)
    ensures var s := AfterInputs(FRESH_STREAM, run);
            && Invariant(s.system, Body(run))
            && (s.system.ended <==> EndsWithData(run))
            && (Begun(s.system.reader) == Some(reader) <==> Begins(run, reader))
            && Sound(s)
  {
    hide Invariant, Trace, Next, Enabled, IsRun, After, IsInputRun, AfterInputs, Sound, Received, Body, EndsWithData;
    var es := Trace(run, false);
    assert Sound(FRESH_STREAM) by {
      FreshSound();
    }
    TraceIsRun(FRESH_STREAM, run);
    TraceSays(run, false);
    assert Invariant(START, "") by {
      FreshInvariant();
    }
    RunKeeps(START, es, "");
    RunHappens(START, es, reader);
    assert "" + Received(es) == Body(run);
  }

  lemma FreshSound()
    ensures Sound(FRESH_STREAM)
  {
  }

  lemma FreshInvariant()
    ensures Invariant(START, "")
  {
  }

  /** A loop over `data()`, whenever it begins: its pieces are the chunks of the frames in order, nothing
      lost or repeated. It gets the end marker exactly if a DATA frame with END_STREAM came, and waits
      otherwise. The coroutine a chunk would resume is always the one that waits. */
  lemma LoopGetsTheBody(run: seq<Input>)
    requires IsInputRun(FRESH_STREAM, run)
    ensures var r := AfterInputs(FRESH_STREAM, run).system.reader;
            && (r.Ended? <==> Begins(run, DataLoop) && EndsWithData(run))
            && (r.Reading? <==> Begins(run, DataLoop) && !EndsWithData(run))
            && (r.Ended? || r.Reading? ==> Pieces(r.got, Body(run)))
            && (r.Reading? ==> AfterInputs(FRESH_STREAM, run).system.request.dataCoro == Waiting)
  {
    Gets(run, DataLoop);
  }

  /** `body()`, whenever it is called: it returns all chunks of the frames in order, exactly if a DATA
      frame with END_STREAM came, and waits otherwise. */
  lemma BodyGetsEverything(run: seq<Input>)
    requires IsInputRun(FRESH_STREAM, run)
    ensures var r := AfterInputs(FRESH_STREAM, run).system.reader;
            && (r.HasBody? <==> Begins(run, BodyCall) && EndsWithData(run))
            && (r.AwaitingBody? <==> Begins(run, BodyCall) && !EndsWithData(run))
            && (r.HasBody? ==> r.text == Body(run))
  {
    Gets(run, BodyCall);
  }

  /** A stream that was closed otherwise keeps its reader waiting, whatever comes. */
  lemma ClosedWaitsForEver(run: seq<Input>, more: seq<Input>)
    requires IsInputRun(FRESH_STREAM, run + more) && AfterInputs(FRESH_STREAM, run).closed && !EndsWithData(run)
    ensures var r := AfterInputs(FRESH_STREAM, run + more).system.reader; !r.Ended? && !r.HasBody?
  {
    InputAppend(FRESH_STREAM, run, more);
    OnlyCalls(AfterInputs(FRESH_STREAM, run), more);
    EndsIn(run, more);
    LoopGetsTheBody(run + more);
    BodyGetsEverything(run + more);
  }

  lemma {:induction false} OnlyCalls(s: Stream, more: seq<Input>)
    requires s.closed && IsInputRun(s, more)
    ensures !EndsWithData(more)
    decreases |more|
  {
    if more != [] {
      OnlyCalls(Step(s, more[0]), more[1..]);
      EndsStep(more);
    }
  }

  lemma {:induction false} EndsIn(run: seq<Input>, more: seq<Input>)
    ensures EndsWithData(run + more) <==> EndsWithData(run) || EndsWithData(more)
  {
    hide EndsWithData;
    if run == [] {
      assert run + more == more && !EndsWithData([]) by {
        NothingEnds();
      }
    } else {
      EndsStep(run);
      EndsStep(run + more);
      EndsIn(run[1..], more);
      assert (run + more)[1..] == run[1..] + more;
    }
  }

  lemma NothingEnds()
    ensures !EndsWithData([])
  {
  }

  lemma {:induction false} InputAppend(s: Stream, run: seq<Input>, more: seq<Input>)
    ensures IsInputRun(s, run + more) <==> IsInputRun(s, run) && IsInputRun(AfterInputs(s, run), more)
    ensures AfterInputs(s, run + more) == AfterInputs(AfterInputs(s, run), more)
    decreases |run|
  {
    hide Step, Allowed;
    if run == [] {
      assert run + more == more;
    } else {
      InputAppend(Step(s, run[0]), run[1..], more);
      assert (run + more)[1..] == run[1..] + more;
    }
  }

  ghost predicate Waits(reader: Progress) {
    reader.Reading? || reader.AwaitingBody?
  }

  lemma WaitsWithoutTheEnd(run: seq<Input>, reader: Reader)
    requires IsInputRun(FRESH_STREAM, run) && Begins(run, reader) && !EndsWithData(run)
    ensures Waits(AfterInputs(FRESH_STREAM, run).system.reader)
  {
    hide IsInputRun, AfterInputs, Begins, EndsWithData;
    LoopGetsTheBody(run);
    BodyGetsEverything(run);
  }

  /** Trailers close the stream without ending the body: a reader that the first DATA frame started waits
      for ever. */
  lemma TrailersNeverEndTheBody(reader: Reader, str: string)
    ensures var run := [Headers(false, None), Data([str], false, Some(reader)), Headers(true, None)];
            && IsInputRun(FRESH_STREAM, run) && AfterInputs(FRESH_STREAM, run).closed
            && Begins(run, reader) && !EndsWithData(run) && AfterInputs(FRESH_STREAM, run).dispatches == 1
            && Waits(AfterInputs(FRESH_STREAM, run).system.reader)
  {
    hide After, Events;
    var (a, b, c) := (Headers(false, None), Data([str], false, Some(reader)), Headers(true, None));
    assert [a, b, c][1..] == [b, c] && [b, c][1..] == [c] && [c][1..] == [];
    DispatchedOnce(FRESH_STREAM, [a, b, c]);
    assert [a, b, c][1] == b;
    var s := Step(Step(FRESH_STREAM, a), b);
    OneInput(s, c);
    InputAppend(FRESH_STREAM, [a], [b, c]);
    InputAppend(Step(FRESH_STREAM, a), [b], [c]);
    OneInput(FRESH_STREAM, a);
    OneInput(Step(FRESH_STREAM, a), b);
    assert [a] + [b, c] == [a, b, c] && [b] + [c] == [b, c];
    StartsInFrame(b);
    assert Trace([a, b, c], false) == Events(a, false) + (Events(b, false) + Trace([c], true));
    WaitsWithoutTheEnd([a, b, c], reader);
  }

  lemma OneInput(s: Stream, i: Input)
    ensures IsInputRun(s, [i]) <==> Allowed(s, i)
    ensures AfterInputs(s, [i]) == Step(s, i)
  {
    hide Step, Allowed;
    assert [i][1..] == [];
  }

  lemma StartsInFrame(i: Input)
    requires !i.Call? && (i.Data? || i.endStream) && i.call.Some?
    ensures Start(i.call.value) in Events(i, false)
  {
    assert Start(i.call.value) in FrameEvents(FrameOf(i), i.call, false);
  }

  /** So does the reader of a request without a body: HEADERS with END_STREAM only dispatches. */
  lemma NoBodyNeverEnds(reader: Reader)
    ensures var run := [Headers(true, Some(reader))];
            && IsInputRun(FRESH_STREAM, run) && AfterInputs(FRESH_STREAM, run).closed
            && Begins(run, reader) && !EndsWithData(run) && AfterInputs(FRESH_STREAM, run).dispatches == 1
            && Waits(AfterInputs(FRESH_STREAM, run).system.reader)
  {
    hide After, Events;
    var a := Headers(true, Some(reader));
    OneInput(FRESH_STREAM, a);
    DispatchedOnce(FRESH_STREAM, [a]);
    assert [a][0] == a;
    StartsInFrame(a);
    assert Trace([a], false) == Events(a, false) + Trace([], true);
    WaitsWithoutTheEnd([a], reader);
  }

  /** The handler is dispatched at most once, and exactly if a DATA frame or the end of the stream came. */
  lemma {:induction false} DispatchedOnce(s: Stream, run: seq<Input>)
    ensures AfterInputs(s, run).dispatches == s.dispatches +
      if !s.prepared && exists i :: 0 <= i < |run| && !run[i].Call? && (run[i].Data? || run[i].endStream) then 1 else 0
    decreases |run|
  {
    hide After, Events;
    if run != [] {
      DispatchedOnce(Step(s, run[0]), run[1..]);
      if i :| 0 <= i < |run| && !run[i].Call? && (run[i].Data? || run[i].endStream) {
        assert i == 0 || run[1..][i - 1] == run[i];
      }
      if i :| 0 <= i < |run[1..]| && !run[1..][i].Call? && (run[1..][i].Data? || run[1..][i].endStream) {
        assert run[i + 1] == run[1..][i];
      }
    }
  }

  // ----- the code -------------------------------------------------------------------------

  /** A stream with the request its handler reads from, and where that handler is. */
  class HttpStream {
    const request: HttpRequest
    var prepared: bool
    var reader: Progress
    ghost var ended: bool
    ghost var closed: bool
    ghost var dispatches: nat
    /** The chunks so far. */
    ghost var received: string

    ghost predicate Valid()
      reads this, request
    {
      Sound(State()) && Invariant(State().system, received)
    }

    ghost function State(): Stream
      reads this, request
    {
      Stream(System(request.State(), reader, ended), prepared, closed, dispatches)
    }

    constructor ()
      ensures State() == FRESH_STREAM && Valid() && fresh(request)
    {
      request := new HttpRequest();
      prepared, reader, ended, closed, dispatches, received := false, Unstarted, false, false, 0, "";
    }

    /** The handler's loop goes on calling `data()`. */
    method RunLoop(got: seq<string>)
      modifies this`reader, request
      ensures (request.State(), reader) == Turn(old(request.State()), got)
    {
      var pieces := got;
      var piece := request.Data();
      while piece.Some? && piece.value != ""
        invariant piece == None ==> Turn(old(request.State()), got) == (request.State(), Reading(pieces))
        invariant piece == Some("") ==> Turn(old(request.State()), got) == (request.State(), Ended(pieces))
        invariant piece.Some? && piece.value != "" ==>
          !request.buffered && Turn(old(request.State()), got) == Turn(request.State(), pieces + [piece.value])
        decreases if piece.Some? && piece.value != "" then 1 else 0
      {
        pieces := pieces + [piece.value];
        piece := request.Data();
      }
      reader := if piece == None then Reading(pieces) else Ended(pieces);
    }

    method StartReader(kind: Reader)
      modifies this`reader, request
      ensures System(request.State(), reader, ended) ==
              Next(System(old(request.State()), old(reader), ended), Start(kind))
    {
      match kind {
        case DataLoop => RunLoop([]);
        case BodyCall =>
          var all := request.Body();
          reader := if all.Some? then HasBody(all.value) else AwaitingBody;
      }
    }

    /** A resumed coroutine goes on. */
    method GoOn(piece: Option<string>)
      modifies this`reader, request
      ensures System(request.State(), reader, ended) ==
              Resumed(old(request.State()), old(reader), piece, ended)
    {
      if piece.Some? {
        match reader {
          case AwaitingBody => reader := HasBody(piece.value);
          case Reading(got) =>
            if piece.value == "" {
              reader := Ended(got);
            } else {
              RunLoop(got + [piece.value]);
            }
          case _ =>
        }
      }
    }

    /** `on_data_chunk_recv_cb`. */
    method OnDataChunk(str: string)
      requires Valid() && !closed
      modifies this`reader, this`received, request
      ensures Valid() && received == old(received) + str
      ensures State() == old(State()).(system := Next(old(State()).system, Chunk(str)))
    {
      ChunkKeeps(State().system, str, received);
      NextHappens(State().system, Chunk(str));
      received := received + str;
      var piece := request.HandleData(str, false);
      GoOn(piece);
    }

    /** `prepare_response`: the handler runs up to its first suspension. */
    method Dispatch(call: Option<Reader>)
      requires Valid() && !prepared && !ended
      modifies this`reader, this`prepared, this`dispatches, request
      ensures Valid() && prepared && dispatches == old(dispatches) + 1
      ensures State().system == if call.Some? then Next(old(State()).system, Start(call.value))
                                else old(State()).system
    {
      if call.Some? {
        StartKeeps(State().system, call.value, received);
        NextHappens(State().system, Start(call.value));
        StartReader(call.value);
      }
      prepared, dispatches := true, dispatches + 1;
    }

    method EndBody()
      requires Valid() && !ended
      modifies this`reader, this`ended, this`closed, request
      ensures Valid() && closed && State().system == Next(old(State()).system, End)
    {
      EndKeeps(State().system, received);
      NextHappens(State().system, End);
      ended, closed := true, true;
      var piece := request.HandleBody();
      GoOn(piece);
    }

    /** `on_frame_recv_cb`: the DATA case falls through into the HEADERS case. */
    method OnFrameRecv(f: Frame, call: Option<Reader>)
      requires Valid() && !closed
      modifies this`reader, this`prepared, this`dispatches, this`ended, this`closed, request
      ensures Valid()
      ensures var (s, r) := (old(State()), ReactionTo(f, old(prepared)));
              State() == Stream(After(s.system, FrameEvents(f, call, s.prepared)),
                                r.prepared, f.endStream, s.dispatches + r.dispatches)
    {
      hide Invariant, Next;
      FrameEventsDo(State().system, f, call, prepared);
      if f.DATA? {
        if !prepared {
          Dispatch(call);
        }
        if f.endStream {
          EndBody();
        }
      }
      if f.endStream {
        if !prepared {
          Dispatch(call);
        }
      }
      closed := f.endStream;
    }

    /** A dispatched handler begins to read later. */
    method Read(kind: Reader)
      requires Valid() && Allowed(State(), Call(kind))
      modifies this`reader, request
      ensures Valid() && State() == Step(old(State()), Call(kind))
    {
      hide Next;
      StartKeeps(State().system, kind, received);
      NextHappens(State().system, Start(kind));
      OneEvent(State().system, Start(kind));
      StartReader(kind);
    }

    /** A whole frame, its chunks first. */
    method Receive(i: Input)
      requires Valid() && !i.Call? && !closed
      modifies this`reader, this`prepared, this`dispatches, this`ended, this`closed, this`received, request
      ensures Valid() && State() == Step(old(State()), i)
    {
      hide Invariant, Next, FrameEvents;
      ghost var chunks := if i.Data? then Chunks(i.chunks) else [];
      RunAppend(State().system, chunks, FrameEvents(FrameOf(i), i.call, prepared));
      if i.Data? {
        for k := 0 to |i.chunks|
          invariant Valid() && !closed && prepared == old(prepared) && dispatches == old(dispatches)
          invariant After(State().system, Chunks(i.chunks[k..]))
                 == After(old(State()).system, Chunks(i.chunks))
        {
          ChunksStep(State().system, i.chunks[k..]);
          OnDataChunk(i.chunks[k]);
          assert i.chunks[k..][1..] == i.chunks[k + 1..];
        }
        OnFrameRecv(DATA(i.endStream), i.call);
      } else {
        OnFrameRecv(HEADERS(i.endStream), i.call);
      }
    }
  }

  lemma ChunksStep(s: System, chunks: seq<string>)
    requires chunks != []
    ensures After(s, Chunks(chunks))
         == After(Next(s, Chunk(chunks[0])), Chunks(chunks[1..]))
  {
    hide Next;
    assert Chunks(chunks)[1..] == Chunks(chunks[1..]);
  }

  lemma FrameEventsDo(s: System, f: Frame, call: Option<Reader>, prepared: bool)
    ensures var r := ReactionTo(f, prepared);
            var t := if r.dispatches > 0 && call.Some? then Next(s, Start(call.value)) else s;
            After(s, FrameEvents(f, call, prepared)) == if r.endsBody then Next(t, End) else t
  {
    hide Next;
    var r := ReactionTo(f, prepared);
    var starts := if r.dispatches > 0 && call.Some? then [Start(call.value)] else [];
    var ends := if r.endsBody then [End] else [];
    RunAppend(s, starts, ends);
    if starts != [] {
      OneEvent(s, starts[0]);
    }
    if ends != [] {
      OneEvent(After(s, starts), End);
    }
  }
}
