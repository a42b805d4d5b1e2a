/** The coroutine form of `query_prepared` (src/dbconnection.cc): prepare the statement if nobody has,
    wait, then execute it. Any number of such coroutines interleave on one session. */
module DbConnections {
  import opened PipelineRules
  import opened Pipeline

  /** Where a coroutine is suspended. */
  datatype Phase = Fresh | AwaitingPrepare | AwaitingExecute | Over

  class QueryPrepared {
    const stream: nat
    const name: string
    var phase: Phase

    constructor (stream: nat, name: string)
      ensures this.stream == stream && this.name == name && phase == Fresh
    {
      this.stream, this.name, phase := stream, name, Fresh;
    }

    /** Up to the first suspension; `fileFound` says whether the query file opens. */
    method Start(session: Session, fileFound: bool)
      requires session.Valid() && phase == Fresh
      modifies this`phase, session`queued, session`watching, session`submitted, session`nextId, session`prepared
      ensures session.Valid()
      ensures var (s, t) := (Started(old(session.prepared), name, fileFound), Commands(session.submitted));
              phase == s.phase && session.prepared == s.prepared && t == old(Commands(session.submitted)) + s.sent
      ensures var (sent, before) := (Commands(session.submitted), old(Commands(session.submitted)));
              if name in old(session.prepared) then
                phase == AwaitingExecute && sent == before + [Execute(name)]
                && session.prepared == old(session.prepared)
              else if fileFound then
                phase == AwaitingPrepare && sent == before + [Prepare(name)]
                && session.prepared == old(session.prepared) + {name}
              else
                phase == Over && sent == before && session.prepared == old(session.prepared)
    {
      hide Session.Valid;
      if name !in session.prepared {
        if !fileFound {
          phase := Over;
        } else {
          session.SendPrepared(stream, name);
          phase := AwaitingPrepare;
        }
      } else {
        session.SendQueryPrepared(stream, name);
        phase := AwaitingExecute;
      }
      CommandsSnoc(old(session.submitted));
    }

    /** Resumed with the result of the query it waits for. */
    method Resume(session: Session, failed: bool)
      requires session.Valid() && (phase == AwaitingPrepare || phase == AwaitingExecute)
      modifies this`phase, session`queued, session`watching, session`submitted, session`nextId
      ensures session.Valid()
      ensures var s := Resumed(old(phase), name, failed);
              phase == s.phase && Commands(session.submitted) == old(Commands(session.submitted)) + s.sent
      ensures var (sent, before) := (Commands(session.submitted), old(Commands(session.submitted)));
              if old(phase) == AwaitingPrepare && !failed then
                phase == AwaitingExecute && sent == before + [Execute(name)]
              else
                phase == Over && sent == before
    {
      hide Session.Valid;
      if phase == AwaitingPrepare && !failed {
        session.SendQueryPrepared(stream, name);
        phase := AwaitingExecute;
      } else {
        phase := Over;
      }
      CommandsSnoc(old(session.submitted));
    }
  }

  ghost function Commands(queries: seq<Query>): (c: seq<Command>)
    ensures |c| == |queries|
  {
    if queries == [] then [] else Commands(queries[..|queries| - 1]) + [queries[|queries| - 1].command]
  }

  lemma CommandsSnoc(queries: seq<Query>)
    ensures forall q :: Commands(queries + [q]) == Commands(queries) + [q.command]
  {
    forall q ensures Commands(queries + [q]) == Commands(queries) + [q.command] {
      assert (queries + [q])[..|queries|] == queries;
    }
  }

  /** What a step does: where it suspends, the prepared set, the commands it sends. */
  datatype Step = Step(phase: Phase, prepared: set<string>, sent: seq<Command>)

  ghost function Started(prepared: set<string>, name: string, fileFound: bool): Step {
    if name in prepared then Step(AwaitingExecute, prepared, [Execute(name)])
    else if fileFound then Step(AwaitingPrepare, prepared + {name}, [Prepare(name)])
    else Step(Over, prepared, [])
  }

  ghost function Resumed(phase: Phase, name: string, failed: bool): Step {
    if phase == AwaitingPrepare && !failed then Step(AwaitingExecute, {}, [Execute(name)])
    else Step(Over, {}, [])
  }

  // ----- runs -----------------------------------------------------------------------------

  /** A command on the wire and whether a `query_prepared` coroutine sent it. */
  datatype Sent = Sent(command: Command, coroutine: bool)

  datatype Coroutine = Coroutine(name: string, phase: Phase)

  datatype World = World(prepared: set<string>, wire: seq<Sent>, coroutines: seq<Coroutine>)

  /** `Call`: a new coroutine runs to its first suspension. `Wake`: coroutine i is resumed.
      `Other`: some other code sends a command; preparing goes through the same set. */
  datatype Event = Call(name: string, fileFound: bool) | Wake(i: nat, failed: bool) | Other(command: Command)

  ghost function Tagged(commands: seq<Command>): seq<Sent> {
    seq(|commands|, i requires 0 <= i < |commands| => Sent(commands[i], true))
  }

  ghost function Next(w: World, e: Event): World {
    match e
    case Call(name, fileFound) =>
      var s := Started(w.prepared, name, fileFound);
      World(s.prepared, w.wire + Tagged(s.sent), w.coroutines + [Coroutine(name, s.phase)])
    case Wake(i, failed) =>
      if i >= |w.coroutines| || w.coroutines[i].phase == Over then w
      else
        var c := w.coroutines[i];
        var s := Resumed(c.phase, c.name, failed);
        w.(wire := w.wire + Tagged(s.sent), coroutines := w.coroutines[i := c.(phase := s.phase)])
    case Other(command) =>
      World(if command.Prepare? then w.prepared + {command.name} else w.prepared,
            w.wire + [Sent(command, false)], w.coroutines)
  }

  ghost function After(w: World, run: seq<Event>): World
    decreases |run|
  {
    if run == [] then w else After(Next(w, run[0]), run[1..])
  }

  ghost predicate PreparedBefore(wire: seq<Sent>, i: nat, name: string)
    requires i <= |wire|
  {
    exists j :: 0 <= j < i && wire[j].command == Prepare(name)
  }

  /** Every execute of a coroutine has a prepare of its name before it, and no prepare of a
      coroutine has one: in particular there are never two. */
  ghost predicate WellOrdered(wire: seq<Sent>) {
    && (forall i :: 0 <= i < |wire| && wire[i].coroutine && wire[i].command.Execute? ==>
          PreparedBefore(wire, i, wire[i].command.name))
    && (forall i :: 0 <= i < |wire| && wire[i].coroutine && wire[i].command.Prepare? ==>
          !PreparedBefore(wire, i, wire[i].command.name))
  }

  ghost predicate Invariant(w: World) {
    && WellOrdered(w.wire)
    && (forall name :: name in w.prepared <==> PreparedBefore(w.wire, |w.wire|, name))
    && (forall c :: c in w.coroutines && c.phase == AwaitingPrepare ==> c.name in w.prepared)
  }

  lemma SendKeeps(wire: seq<Sent>, s: Sent)
    requires WellOrdered(wire)
    requires s.coroutine && s.command.Execute? ==> PreparedBefore(wire, |wire|, s.command.name)
    requires s.coroutine && s.command.Prepare? ==> !PreparedBefore(wire, |wire|, s.command.name)
    ensures WellOrdered(wire + [s])
    ensures forall name :: PreparedBefore(wire + [s], |wire| + 1, name)
                      <==> PreparedBefore(wire, |wire|, name) || s.command == Prepare(name)
  {
    var wire' := wire + [s];
    forall i, name | 0 <= i <= |wire|
      ensures PreparedBefore(wire', i, name) <==> PreparedBefore(wire, i, name)
    {
      assert forall j :: 0 <= j < i ==> wire'[j] == wire[j];
    }
    assert wire'[|wire|] == s;
  }

  lemma NextKeeps(w: World, e: Event)
    requires Invariant(w)
    ensures Invariant(Next(w, e))
  {
    match e
    case Call(name, fileFound) =>
      var s := Started(w.prepared, name, fileFound);
      if s.sent != [] {
        assert Tagged(s.sent) == [Sent(s.sent[0], true)];
        SendKeeps(w.wire, Sent(s.sent[0], true));
      } else {
        assert w.wire + Tagged(s.sent) == w.wire;
      }
    case Wake(i, failed) =>
      if i < |w.coroutines| && w.coroutines[i].phase != Over {
        var c := w.coroutines[i];
        var s := Resumed(c.phase, c.name, failed);
        if s.sent != [] {
          assert c in w.coroutines;
          assert Tagged(s.sent) == [Sent(s.sent[0], true)];
          SendKeeps(w.wire, Sent(s.sent[0], true));
        } else {
          assert w.wire + Tagged(s.sent) == w.wire;
        }
      }
    case Other(command) =>
      SendKeeps(w.wire, Sent(command, false));
  }

  lemma {:induction false} RunKeeps(w: World, run: seq<Event>)
    requires Invariant(w)
    ensures Invariant(After(w, run))
    decreases |run|
  {
    if run != [] {
      NextKeeps(w, run[0]);
      RunKeeps(Next(w, run[0]), run[1..]);
    }
  }

  /** Over any interleaving: at most one prepare per name comes from the coroutines, and every
      execute of theirs comes after a prepare of its name. */
  lemma PreparedOnceAndFirst(run: seq<Event>, i: nat, name: string)
    requires i < |After(World({}, [], []), run).wire|
    ensures var wire := After(World({}, [], []), run).wire;
            && (wire[i] == Sent(Execute(name), true) ==> exists j: nat :: j < i && wire[j].command == Prepare(name))
            && (wire[i] == Sent(Prepare(name), true) ==>
                  forall j: nat :: j < |wire| && wire[j] == Sent(Prepare(name), true) ==> j == i)
  {
    RunKeeps(World({}, [], []), run);
    var wire := After(World({}, [], []), run).wire;
    if wire[i] == Sent(Execute(name), true) {
      assert PreparedBefore(wire, i, name);
      var j :| 0 <= j < i && wire[j].command == Prepare(name);
      var k: nat := j;
      assert k < i && wire[k].command == Prepare(name);
    }
    if wire[i] == Sent(Prepare(name), true) {
      forall j: nat | j < |wire| && wire[j] == Sent(Prepare(name), true)
        ensures j == i
      {
        assert !PreparedBefore(wire, i, name) && !PreparedBefore(wire, j, name);
      }
    }
  }

  // ----- what goes on the wire, exactly ---------------------------------------------------

  /** A call adds exactly the execute of a name that is prepared, or else its prepare if there is a file.
      A wake adds exactly the execute of a coroutine whose prepare did not fail. */
  lemma NextSends(w: World, e: Event)
    ensures match e
            case Call(name, fileFound) =>
              if name in w.prepared then
                Next(w, e) == World(w.prepared, w.wire + [Sent(Execute(name), true)],
                                    w.coroutines + [Coroutine(name, AwaitingExecute)])
              else if fileFound then
                Next(w, e) == World(w.prepared + {name}, w.wire + [Sent(Prepare(name), true)],
                                    w.coroutines + [Coroutine(name, AwaitingPrepare)])
              else
                Next(w, e) == w.(coroutines := w.coroutines + [Coroutine(name, Over)])
            case Wake(i, failed) =>
              if i >= |w.coroutines| || w.coroutines[i].phase == Over then Next(w, e) == w
              else
                var name := w.coroutines[i].name;
                if w.coroutines[i].phase == AwaitingPrepare && !failed then
                  Next(w, e) == World(w.prepared, w.wire + [Sent(Execute(name), true)],
                                      w.coroutines[i := Coroutine(name, AwaitingExecute)])
                else
                  Next(w, e) == w.(coroutines := w.coroutines[i := Coroutine(name, Over)])
            case Other(command) =>
              && Next(w, e).wire == w.wire + [Sent(command, false)] && Next(w, e).coroutines == w.coroutines
              && Next(w, e).prepared == w.prepared + if command.Prepare? then {command.name} else {}
  {
    match e
    case Call(name, fileFound) =>
      TaggedOne(Execute(name));
      TaggedOne(Prepare(name));
      assert w.wire + Tagged([]) == w.wire;
    case Wake(i, failed) =>
      if i < |w.coroutines| {
        TaggedOne(Execute(w.coroutines[i].name));
      }
      assert w.wire + Tagged([]) == w.wire;
    case Other(command) =>
  }

  lemma TaggedOne(command: Command)
    ensures Tagged([command]) == [Sent(command, true)]
  {
  }

  /** A name is prepared exactly if some other code prepared it before, or a call found its file. */
  ghost predicate PreparedBy(run: seq<Event>, name: string) {
    Other(Prepare(name)) in run || Call(name, true) in run
  }

  lemma {:induction false} RunPrepares(w: World, run: seq<Event>, name: string)
    ensures name in After(w, run).prepared <==> name in w.prepared || PreparedBy(run, name)
    decreases |run|
  {
    hide Next;
    if run != [] {
      NextSends(w, run[0]);
      RunPrepares(Next(w, run[0]), run[1..], name);
    }
  }

  /** The names that coroutines execute on the wire, in order. */
  ghost function Executes(wire: seq<Sent>): seq<string> {
    if wire == [] then []
    else
      var s := wire[|wire| - 1];
      Executes(wire[..|wire| - 1]) + if s.coroutine && s.command.Execute? then [s.command.name] else []
  }

  /** One for every call of a prepared name, and one for every wake of a coroutine that waits for its
      prepare and is told of no failure. */
  ghost function ExecutesDue(w: World, run: seq<Event>): seq<string>
    decreases |run|
  {
    if run == [] then []
    else
      (match run[0]
       case Call(name, _) => if name in w.prepared then [name] else []
       case Wake(i, failed) =>
         if i < |w.coroutines| && w.coroutines[i].phase == AwaitingPrepare && !failed
         then [w.coroutines[i].name] else []
       case Other(_) => [])
      + ExecutesDue(Next(w, run[0]), run[1..])
  }

  lemma ExecutesSnoc(wire: seq<Sent>, s: Sent)
    ensures Executes(wire + [s]) == Executes(wire) + if s.coroutine && s.command.Execute? then [s.command.name] else []
  {
    assert (wire + [s])[..|wire|] == wire;
  }

  /** Over every run the coroutines execute exactly those, in that order. */
  lemma {:induction false} RunExecutes(w: World, run: seq<Event>)
    ensures Executes(After(w, run).wire) == Executes(w.wire) + ExecutesDue(w, run)
    decreases |run|
  {
    hide Next, Executes;
    if run == [] {
      assert Executes(w.wire) + [] == Executes(w.wire);
    } else {
      var (e, v) := (run[0], Next(w, run[0]));
      NextSends(w, e);
      RunExecutes(v, run[1..]);
      if |v.wire| > |w.wire| {
        ExecutesSnoc(w.wire, v.wire[|w.wire|]);
      }
      assert Executes(v.wire) + ExecutesDue(v, run[1..]) == Executes(w.wire) + ExecutesDue(w, run);
    }
  }
}
