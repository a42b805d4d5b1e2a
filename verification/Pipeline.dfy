/** The pipelined database session (src/dbsession.cc) on a model of libpq. Queries move from
    submitted to `queued` to `dispatched` to `finished`; handlers run inside `Read` and may submit
    more queries and open or close streams. */
module Pipeline {
  import opened Options
  import opened Sequences
  import opened PipelineRules
  import opened Workers

  /** libpq in pipeline mode with its server: answers on their way, answers received, and whether the
      NULL that ends a query is the next thing `PQgetResult` returns. */
  class Connection {
    var arrived: seq<Item>
    var inFlight: seq<Item>
    var nullDue: bool
    /** The server skips queries until the next sync point. */
    var aborted: bool
    /** Everything the server has answered, and what `PQgetResult` has returned of it. */
    ghost var answered: seq<Item>
    ghost var taken: seq<Item>
    /** Calls of `PQconsumeInput`, and whether the last one failed. */
    ghost var polls: nat
    ghost var pollFailed: bool
    /** Calls of `PQflush`, those that would block, and failed calls while writing. */
    ghost var flushes: nat
    ghost var blocks: nat
    ghost var failures: nat

    constructor ()
      ensures arrived == [] && inFlight == [] && !nullDue && !aborted && answered == [] && taken == []
    {
      arrived, inFlight, nullDue, aborted, answered, taken := [], [], false, false, [], [];
      polls, pollFailed, flushes, blocks, failures := 0, false, 0, 0, 0;
    }

    function Pending(): seq<Item>
      reads this
    {
      arrived + inFlight
    }

    /** `PQsendQuery` and its kin; the server decides the outcome. */
    method SendQuery(q: Query) returns (ok: bool, ghost outcome: Outcome)
      modifies this`inFlight, this`aborted, this`answered, this`failures
      ensures ok ==> inFlight == old(inFlight) + [Result(outcome, q.id)]
      ensures ok ==> answered == old(answered) + [Result(outcome, q.id)]
      ensures ok ==> (outcome == Aborted <==> old(aborted))
      ensures ok ==> aborted == (old(aborted) || outcome == Failed)
      ensures !ok ==> inFlight == old(inFlight) && answered == old(answered) && aborted == old(aborted)
      ensures failures == old(failures) + if ok then 0 else 1
    {
      var sent: bool, fails: bool, empty: bool := *, *, *;
      var o := if aborted then Aborted else if fails then Failed else if empty then Empty else Done;
      if sent {
        inFlight, answered := inFlight + [Result(o, q.id)], answered + [Result(o, q.id)];
        aborted := aborted || o == Failed;
      } else {
        failures := failures + 1;
      }
      return sent, o;
    }

    method PipelineSync() returns (ok: bool)
      modifies this`inFlight, this`aborted, this`answered, this`failures
      ensures ok ==> inFlight == old(inFlight) + [SyncMark] && answered == old(answered) + [SyncMark] && !aborted
      ensures !ok ==> inFlight == old(inFlight) && answered == old(answered) && aborted == old(aborted)
      ensures failures == old(failures) + if ok then 0 else 1
    {
      ok := *;
      if ok {
        inFlight, answered, aborted := inFlight + [SyncMark], answered + [SyncMark], false;
      } else {
        failures := failures + 1;
      }
    }

    /** `PQflush`: 0 if all is sent, 1 if it would block, -1 if it failed. */
    method Flush() returns (rv: int)
      modifies this`flushes, this`blocks, this`failures
      ensures -1 <= rv <= 1
      ensures flushes == old(flushes) + 1
      ensures blocks == old(blocks) + if rv == 1 then 1 else 0
      ensures failures == old(failures) + if rv == -1 then 1 else 0
    {
      rv :| -1 <= rv <= 1;
      flushes := flushes + 1;
      if rv == 1 {
        blocks := blocks + 1;
      } else if rv == -1 {
        failures := failures + 1;
      }
    }

    /** Any number of items arrives. */
    method ConsumeInput() returns (ok: bool, ghost n: nat)
      modifies this`arrived, this`inFlight, this`polls, this`pollFailed
      ensures n <= |old(inFlight)|
      ensures arrived == old(arrived) + old(inFlight)[..n] && inFlight == old(inFlight)[n..]
      ensures polls == old(polls) + 1 && pollFailed == !ok
    {
      ok := *;
      var k: nat :| k <= |inFlight|;
      n := k;
      arrived, inFlight := arrived + inFlight[..k], inFlight[k..];
      polls, pollFailed := polls + 1, !ok;
    }

    /** False when a result is ready or nothing is outstanding. */
    function IsBusy(): bool
      reads this
    {
      !nullDue && arrived == [] && inFlight != []
    }

    /** `PQgetResult`, which would block on a busy connection. */
    method GetResult() returns (r: Option<Item>)
      requires !IsBusy()
      modifies this`arrived, this`nullDue, this`taken
      ensures old(nullDue) || old(arrived) == [] ==>
        r == None && arrived == old(arrived) && !nullDue && taken == old(taken)
      ensures !old(nullDue) && old(arrived) != [] ==>
        r == Some(old(arrived)[0]) && arrived == old(arrived)[1..] && nullDue == r.value.Result?
        && taken == old(taken) + [r.value]
    {
      if nullDue || arrived == [] {
        r, nullDue := None, false;
      } else {
        taken := taken + [arrived[0]];
        r, arrived, nullDue := Some(arrived[0]), arrived[1..], arrived[0].Result?;
      }
    }
  }

  /** A popped query, its outcome, and whether its stream was alive when its result was read. */
  datatype Finished = Finished(query: Query, outcome: Outcome, alive: bool)

  /** What its handler is told of a finished query: its own outcome. */
  ghost function Told(f: Finished): seq<Delivery> {
    if f.outcome == Empty then [] else [Delivery(f.query, f.outcome, f.query.id)]
  }

  ghost function Delivered(fs: seq<Finished>): seq<Delivery> {
    if fs == [] then [] else Delivered(fs[..|fs| - 1]) + Told(fs[|fs| - 1])
  }

  /** The handlers that must have run: one for each result whose stream was alive. */
  ghost function HandlersDue(fs: seq<Finished>): seq<Delivery> {
    if fs == [] then []
    else HandlersDue(fs[..|fs| - 1]) + if fs[|fs| - 1].alive then Told(fs[|fs| - 1]) else []
  }

  /** The answers that finished these queries. */
  ghost function AnswersOf(fs: seq<Finished>): seq<Item> {
    if fs == [] then []
    else AnswersOf(fs[..|fs| - 1]) + [Result(fs[|fs| - 1].outcome, fs[|fs| - 1].query.id)]
  }

  /** The results among the items, without the sync marks. */
  ghost function Results(items: seq<Item>): seq<Item> {
    if items == [] then []
    else Results(items[..|items| - 1]) + if items[|items| - 1].Result? then [items[|items| - 1]] else []
  }

  lemma ResultsSnoc(items: seq<Item>, i: Item)
    ensures Results(items + [i]) == if i.Result? then Results(items) + [i] else Results(items)
  {
    assert (items + [i])[..|items|] == items;
  }

  ghost function Queries(fs: seq<Finished>): (qs: seq<Query>)
    ensures |qs| == |fs|
  {
    if fs == [] then [] else Queries(fs[..|fs| - 1]) + [fs[|fs| - 1].query]
  }

  lemma FinishedSnoc(fs: seq<Finished>, f: Finished)
    ensures Queries(fs + [f]) == Queries(fs) + [f.query]
    ensures HandlersDue(fs + [f]) == HandlersDue(fs) + if f.alive then Told(f) else []
    ensures Delivered(fs + [f]) == Delivered(fs) + Told(f)
    ensures AnswersOf(fs + [f]) == AnswersOf(fs) + [Result(f.outcome, f.query.id)]
    ensures Told(f) == Deliver(f.query, Result(f.outcome, f.query.id))
  {
    assert (fs + [f])[..|fs|] == fs;
  }

  /** The answers outstanding are those of the dispatched queries, after at most one stray mark. */
  ghost predicate Matched(pending: seq<Item>, dispatched: seq<Query>) {
    || Answers(pending, dispatched)
    || (pending != [] && pending[0] == SyncMark && Answers(pending[1..], dispatched))
  }

  lemma MatchedSnoc(pending: seq<Item>, dispatched: seq<Query>, q: Query, outcome: Outcome)
    requires Matched(pending, dispatched)
    ensures Matched(pending + Answer(q, outcome), dispatched + [q])
  {
    hide Answers, Answer;
    if Answers(pending, dispatched) {
      AnswersSnoc(pending, dispatched, q, outcome);
    } else {
      AnswersSnoc(pending[1..], dispatched, q, outcome);
      assert (pending + Answer(q, outcome))[1..] == pending[1..] + Answer(q, outcome);
    }
  }

  /** Reading the next item keeps the rest matched: a result belongs to the front query and, since
      every query syncs, leaves its mark as the stray one. */
  lemma MatchedTail(pending: seq<Item>, dispatched: seq<Query>)
    requires Matched(pending, dispatched)
    requires forall q :: q in dispatched ==> q.sync
    ensures pending == [] ==> dispatched == []
    ensures pending != [] && pending[0].SyncMark? ==> Matched(pending[1..], dispatched)
    ensures pending != [] && pending[0].Result? ==>
      && dispatched != [] && pending[0].of == dispatched[0].id
      && Matched(pending[1..], dispatched[1..])
  {
    if pending != [] && pending[0].Result? {
      assert pending[1..][1..] == pending[2..];
    }
  }

  lemma EagerReadUnfolds(r: Reader)
    ensures EagerRead(r) ==
      if r.arrived == [] then r
      else if EagerRound(r).dispatched == [] then EagerRound(r)
      else EagerRead(EagerRound(r))
  {
  }

  lemma TakeMore(s: seq<Query>, k: nat, n: nat)
    requires k + n <= |s|
    ensures s[..k] + s[k..][..n] == s[..k + n] && s[k..][n..] == s[k + n..]
  {
  }

  lemma TakenOne(taken: seq<Item>, pending: seq<Item>)
    requires pending != []
    ensures taken + [pending[0]] + pending[1..] == taken + pending
  {
  }

  lemma MovesOn(done: seq<Query>, dispatched: seq<Query>, queued: seq<Query>, more: seq<Query>)
    ensures done + dispatched + (queued + more) == done + dispatched + queued + more
    ensures dispatched != [] ==>
      done + [dispatched[0]] + dispatched[1..] + (queued + more) == done + dispatched + queued + more
  {
  }

  lemma TakeOne(s: seq<Query>, k: nat)
    requires k < |s|
    ensures s[..k] + [s[k..][0]] == s[..k + 1] && s[k..][1..] == s[k + 1..]
  {
  }

  /** The names that queries prepare. */
  function Names(queries: seq<Query>): set<string> {
    set q | q in queries && q.command.Prepare? :: q.command.name
  }

  lemma NamesAppend(queries: seq<Query>, more: seq<Query>)
    ensures Names(queries + more) == Names(queries) + Names(more)
  {
  }

  lemma NamesSnoc(queries: seq<Query>, q: Query)
    ensures Names(queries + [q]) == Names(queries) + if q.command.Prepare? then {q.command.name} else {}
  {
  }

  class Session {
    const conn: Connection
    const worker: Worker
    var queued: seq<Query>
    var dispatched: seq<Query>
    /** The write watcher is started. */
    var watching: bool
    var prepared: set<string>
    /** Numbers the completion handlers. */
    var nextId: nat
    ghost var submitted: seq<Query>
    ghost var finished: seq<Finished>
    /** The handler calls made, in order. */
    ghost var handled: seq<Delivery>

    ghost predicate Books()
      reads this
    {
      && Queries(finished) + dispatched + queued == submitted
      && nextId == |submitted|
      && (forall i :: 0 <= i < |submitted| ==> submitted[i].id == i)
      && (forall q :: q in dispatched || q in queued ==> q.sync)
      && (forall f :: f in finished ==> f.outcome != Aborted)
      && handled == HandlersDue(finished)
    }

    ghost predicate Valid()
      reads this, conn, worker
    {
      && Books() && Matched(conn.Pending(), dispatched) && worker.Valid()
      && !conn.nullDue && !conn.aborted
      && (forall i :: i in conn.Pending() && i.Result? ==> i.outcome != Aborted)
      && (!watching ==> queued == [])
      && conn.taken + conn.Pending() == conn.answered && AnswersOf(finished) == Results(conn.taken)
    }

    ghost function Reading(): Reader
      reads this, conn
    {
      Reader(dispatched, conn.arrived, Delivered(finished))
    }

    constructor (worker: Worker)
      requires worker.Valid()
      ensures Valid() && submitted == [] && fresh(conn) && this.worker == worker
    {
      conn := new Connection();
      this.worker := worker;
      queued, dispatched, watching, prepared := [], [], false, {};
      nextId, submitted, finished, handled := 0, [], [], [];
    }

    /** Every `send_*` method: a sync point goes to the end of the queue, the watcher is started. */
    method Enqueue(stream: nat, command: Command)
      modifies this`queued, this`watching, this`submitted, this`nextId
      ensures var q := Query(old(nextId), stream, true, command);
              queued == old(queued) + [q] && submitted == old(submitted) + [q]
      ensures watching && nextId == old(nextId) + 1
      ensures old(Books()) ==> Books()
    {
      var q := Query(nextId, stream, true, command);
      queued, watching, submitted, nextId := queued + [q], true, submitted + [q], nextId + 1;
    }

    /** The `send_*` methods, which differ in the command and in the prepared set. */
    method SendQuery(stream: nat, text: string)
      requires Valid()
      modifies this`queued, this`watching, this`submitted, this`nextId
      ensures Valid() && submitted == old(submitted) + [Query(old(nextId), stream, true, Simple(text))]
    {
      Enqueue(stream, Simple(text));
    }

    method SendPrepared(stream: nat, name: string)
      requires Valid()
      modifies this`queued, this`watching, this`submitted, this`nextId, this`prepared
      ensures Valid() && submitted == old(submitted) + [Query(old(nextId), stream, true, Prepare(name))]
      ensures prepared == old(prepared) + {name}
    {
      prepared := prepared + {name};
      Enqueue(stream, Prepare(name));
    }

    method SendQueryPrepared(stream: nat, name: string)
      requires Valid()
      modifies this`queued, this`watching, this`submitted, this`nextId
      ensures Valid() && submitted == old(submitted) + [Query(old(nextId), stream, true, Execute(name))]
    {
      Enqueue(stream, Execute(name));
    }

    /** What a handler may do to the session: submit more queries, and so record names as prepared. */
    twostate predicate OnlyEnqueued(more: seq<Query>)
      reads this
    {
      && queued == old(queued) + more && submitted == old(submitted) + more
      && nextId == old(nextId) + |more| && prepared == old(prepared) + Names(more)
      && (more != [] ==> watching) && (more == [] ==> watching == old(watching))
      && (forall i :: 0 <= i < |more| ==> more[i].id == old(nextId) + i && more[i].sync)
    }

    method RunHandler() returns (ghost more: seq<Query>)
      requires worker.Valid()
      modifies this`queued, this`watching, this`submitted, this`nextId, this`prepared, worker
      ensures worker.Valid() && OnlyEnqueued(more)
    {
      var calls: nat :| 0 <= calls;
      more := [];
      for i := 0 to calls
        invariant worker.Valid() && OnlyEnqueued(more)
      {
        var opens: bool, closes: bool, enqueues: bool := *, *, *;
        var stream: nat :| 0 <= stream;
        if opens {
          var serial := worker.AddStream();
        } else if closes {
          worker.RemoveStream(stream);
        } else if enqueues {
          var command: Command := *;
          ghost var q := HandlerSends(stream, command);
          NamesAppend(more, [q]);
          more := more + [q];
        }
      }
    }

    /** Any of the `send_*` methods; a resumed coroutine prepares and executes statements. */
    method HandlerSends(stream: nat, command: Command) returns (ghost q: Query)
      modifies this`queued, this`watching, this`submitted, this`nextId, this`prepared
      ensures q == Query(old(nextId), stream, true, command)
      ensures queued == old(queued) + [q] && submitted == old(submitted) + [q]
      ensures watching && nextId == old(nextId) + 1
      ensures prepared == old(prepared) + Names([q])
    {
      q := Query(nextId, stream, true, command);
      NamesSnoc([], q);
      assert [] + [q] == [q];
      match command {
        case Prepare(name) => prepared := prepared + {name};
        case _ =>
      }
      Enqueue(stream, command);
    }

    /** `handle_result`: the handler runs if the stream was alive. */
    method HandleResult(q: Query, outcome: Outcome, of: nat, alive: bool) returns (ghost more: seq<Query>)
      requires worker.Valid() && outcome != Empty
      modifies this`queued, this`watching, this`submitted, this`nextId, this`prepared, this`handled, worker
      ensures worker.Valid() && OnlyEnqueued(more)
      ensures handled == old(handled) + if alive then [Delivery(q, outcome, of)] else []
    {
      more := [];
      if alive {
        handled := handled + [Delivery(q, outcome, of)];
        more := RunHandler();
      }
    }

    /** The inner loop of `read`: takes results up to the NULL or a sync mark. `read` is the result
        handed to the front query, if there was one. */
    method ReadResults(front: Option<Query>, alive: bool)
      returns (pipelineSync: bool, ghost read: Option<Item>, ghost more: seq<Query>)
      requires worker.Valid() && !conn.IsBusy() && !conn.nullDue
      requires conn.arrived != [] && conn.arrived[0].Result? ==> front.Some?
      modifies this`queued, this`watching, this`submitted, this`nextId, this`prepared, this`handled
      modifies conn`arrived, conn`nullDue, conn`taken, worker
      ensures worker.Valid() && OnlyEnqueued(more) && !conn.nullDue
      ensures old(conn.arrived) == [] ==> conn.arrived == []
      ensures old(conn.arrived) != [] ==> conn.arrived == old(conn.arrived)[1..]
      ensures pipelineSync == (old(conn.arrived) != [] && old(conn.arrived)[0] == SyncMark)
      ensures read == if old(conn.arrived) != [] && !pipelineSync then Some(old(conn.arrived)[0]) else None
      ensures old(conn.arrived) == [] ==> conn.taken == old(conn.taken)
      ensures old(conn.arrived) != [] ==> conn.taken == old(conn.taken) + [old(conn.arrived)[0]]
      ensures handled == old(handled) +
        if read.Some? && alive && read.value.outcome != Empty
        then [Delivery(front.value, read.value.outcome, read.value.of)] else []
    {
      pipelineSync, read, more := false, None, [];
      var result := conn.GetResult();
      while result.Some?
        invariant worker.Valid() && OnlyEnqueued(more) && !pipelineSync
        invariant read == None ==>
          && more == [] && handled == old(handled)
          && (old(conn.arrived) == [] ==>
                result == None && conn.arrived == [] && !conn.nullDue && conn.taken == old(conn.taken))
          && (old(conn.arrived) != [] ==>
                && result == Some(old(conn.arrived)[0]) && conn.arrived == old(conn.arrived)[1..]
                && conn.taken == old(conn.taken) + [old(conn.arrived)[0]]
                && conn.nullDue == result.value.Result?)
        invariant read.Some? ==>
          && result == None && !conn.nullDue && old(conn.arrived) != []
          && read == Some(old(conn.arrived)[0]) && read.value.Result? && conn.arrived == old(conn.arrived)[1..]
          && conn.taken == old(conn.taken) + [old(conn.arrived)[0]]
          && handled == old(handled) +
             if alive && read.value.outcome != Empty
             then [Delivery(front.value, read.value.outcome, read.value.of)] else []
        decreases if result.Some? then 1 else 0
      {
        read := result;
        match result.value {
          case SyncMark =>
            pipelineSync, read := true, None;
            break;
          case Result(outcome, of) =>
            // no handler for PGRES_EMPTY_QUERY
            if outcome != Empty {
              more := HandleResult(front.value, outcome, of, alive);
            }
        }
        result := conn.GetResult();
      }
    }

    /** One round of `read`: pops the front query unless a sync mark was read. With nothing
        dispatched there is no front query to look at. */
    method ReadRound() returns (ghost more: seq<Query>)
      requires Valid() && !conn.IsBusy()
      modifies this`queued, this`dispatched, this`watching, this`submitted, this`nextId, this`prepared
      modifies this`handled, this`finished
      modifies conn`arrived, conn`nullDue, conn`taken, worker
      ensures Valid()
      ensures old(conn.arrived) == [] ==> dispatched == [] && Reading() == old(Reading())
      ensures old(conn.arrived) != [] ==> Reading() == EagerRound(old(Reading()))
      ensures queued == old(queued) + more
      // the handler of the front query runs exactly when a result is read and its stream is alive
      ensures old(conn.arrived) != [] && old(conn.arrived)[0].Result? ==> old(dispatched) != []
      ensures handled == old(handled) +
        if old(conn.arrived) != [] && old(conn.arrived)[0].Result? && old(conn.arrived)[0].outcome != Empty
           && old(dispatched)[0].stream in old(worker.alive)
        then [Delivery(old(dispatched)[0], old(conn.arrived)[0].outcome, old(dispatched)[0].id)] else []
      ensures finished == old(finished) +
        if old(conn.arrived) != [] && old(conn.arrived)[0].Result?
        then
          var q := old(dispatched)[0];
          [Finished(q, old(conn.arrived)[0].outcome, q.stream in old(worker.alive))]
        else []
    {
      hide Matched, Answers, Delivered, HandlersDue, Queries, Deliver, AnswersOf, Results;
      ghost var before := conn.Pending();
      MatchedTail(before, dispatched);
      var front := if dispatched == [] then None else Some(dispatched[0]);
      var streamAlive := front.Some? && worker.IsStreamAlive(front.value.stream);
      var pipelineSync, read, extra := ReadResults(front, streamAlive);
      more := extra;
      assert before != [] ==> conn.Pending() == before[1..];
      if old(conn.arrived) != [] {
        assert before[0] == old(conn.arrived)[0];
        ResultsSnoc(old(conn.taken), before[0]);
        TakenOne(old(conn.taken), before);
      }
      MovesOn(Queries(finished), dispatched, old(queued), more);
      if read.Some? {
        ghost var f := Finished(front.value, read.value.outcome, streamAlive);
        assert before[0] == Result(f.outcome, f.query.id);
        FinishedSnoc(finished, f);
        finished := finished + [f];
      }
      if !pipelineSync && dispatched != [] {
        dispatched := dispatched[1..];
      }
    }

    /** `read`: exactly the eager rule on whatever has arrived. The ghost results say how many items
        came in and which queries the handlers added. */
    method Read() returns (rv: int, ghost n: nat, ghost more: seq<Query>)
      requires Valid()
      modifies this`queued, this`dispatched, this`watching, this`submitted, this`nextId, this`prepared
      modifies this`handled, this`finished
      modifies conn`arrived, conn`inFlight, conn`nullDue, conn`taken, conn`polls, conn`pollFailed, worker
      ensures rv == 0 || rv == -1
      ensures conn.polls == old(conn.polls) + 1
      ensures rv == -1 <==> conn.pollFailed
      ensures Valid()
      ensures n <= |old(conn.inFlight)| && queued == old(queued) + more
      ensures rv == 0 ==>
        var now := old(conn.Pending())[..|old(conn.arrived)| + n];
        Reading() == EagerRead(Reader(old(dispatched), now, old(Delivered(finished))))
    {
      hide Answers, Matched, Delivered, HandlersDue, Queries, Deliver, AnswersOf, Results, EagerRead;
      more := [];
      var ok, arrived := conn.ConsumeInput();
      n := arrived;
      assert conn.Pending() == old(conn.Pending());
      if !ok {
        return -1, n, more;
      }
      assert conn.arrived == old(conn.Pending())[..|old(conn.arrived)| + n];
      ghost var start := Reading();
      while !conn.IsBusy()
        invariant Valid() && queued == old(queued) + more
        invariant conn.polls == old(conn.polls) + 1 && !conn.pollFailed
        invariant EagerRead(start) == EagerRead(Reading())
        decreases |conn.arrived|
      {
        EagerReadUnfolds(Reading());
        var extra := ReadRound();
        more := more + extra;
        if dispatched == [] {
          return 0, n, more;
        }
      }
      EagerReadUnfolds(Reading());
      rv := 0;
    }

    /** Sends the front of the queue, and a sync after it, and moves it to the dispatched ones. */
    method DispatchFront() returns (ok: bool)
      requires Valid() && queued != []
      modifies this`queued, this`dispatched, conn`inFlight, conn`aborted, conn`answered, conn`failures
      ensures ok ==> Valid() && queued == old(queued)[1..] && dispatched == old(dispatched) + [old(queued)[0]]
      ensures ok <==> conn.failures == old(conn.failures)
      ensures conn.failures >= old(conn.failures)
    {
      hide Answers, AnswersOf, Results, Queries, HandlersDue;
      var q := queued[0];
      var sent, outcome := conn.SendQuery(q);
      if !sent {
        return false;
      }
      if q.sync {
        var synced := conn.PipelineSync();
        if !synced {
          return false;
        }
      }
      assert conn.Pending() == old(conn.Pending()) + Answer(q, outcome);
      MatchedSnoc(old(conn.Pending()), dispatched, q, outcome);
      hide Matched;
      dispatched := dispatched + [q];
      queued := queued[1..];
      ok := true;
    }

    /** Up to twenty queries, in order. */
    method DispatchBatch() returns (ok: bool)
      requires Valid()
      modifies this`queued, this`dispatched, conn`inFlight, conn`aborted, conn`answered, conn`failures
      ensures ok ==>
        var k := if |old(queued)| < 20 then |old(queued)| else 20;
        Valid() && dispatched == old(dispatched) + old(queued)[..k] && queued == old(queued)[k..]
      ensures ok <==> conn.failures == old(conn.failures)
      ensures conn.failures >= old(conn.failures)
    {
      hide Session.Valid;
      var n := 20;
      while queued != [] && n != 0
        invariant 0 <= 20 - n <= |old(queued)| && n >= 0
        invariant Valid() && conn.failures == old(conn.failures)
        invariant dispatched == old(dispatched) + old(queued)[..20 - n] && queued == old(queued)[20 - n..]
        decreases n
      {
        TakeOne(old(queued), 20 - n);
        Assoc(old(dispatched), old(queued)[..20 - n], [queued[0]]);
        ok := DispatchFront();
        if !ok {
          return;
        }
        n := n - 1;
      }
      ok := true;
    }

    /** `write`: flush, then a batch, until nothing is queued. A flush that would block leaves the
        watcher as it is; when the queue is empty the watcher stops. */
    method Write() returns (rv: int, ghost k: nat)
      requires Valid()
      modifies this`queued, this`dispatched, this`watching
      modifies conn`inFlight, conn`aborted, conn`answered, conn`failures, conn`flushes, conn`blocks
      ensures rv == 0 || rv == -1
      ensures rv == -1 <==> conn.failures > old(conn.failures)
      ensures k <= |old(queued)|
      ensures rv == 0 ==>
        Valid() && dispatched == old(dispatched) + old(queued)[..k] && queued == old(queued)[k..]
      // without a would-block the queue is emptied, with one flush before every batch
      ensures rv == 0 && conn.blocks == old(conn.blocks) ==>
        && queued == [] && !watching
        && conn.flushes == old(conn.flushes) + if k == 0 then 1 else (k + 19) / 20
      // with one, it was the last flush, after whole batches
      ensures rv == 0 && conn.blocks != old(conn.blocks) ==>
        && watching == old(watching) && k % 20 == 0
        && conn.blocks == old(conn.blocks) + 1 && conn.flushes == old(conn.flushes) + k / 20 + 1
    {
      hide Session.Valid;
      k := 0;
      while true
        invariant k <= |old(queued)| && k % 20 == 0
        invariant Valid() && watching == old(watching)
        invariant dispatched == old(dispatched) + old(queued)[..k] && queued == old(queued)[k..]
        invariant conn.failures == old(conn.failures) && conn.blocks == old(conn.blocks)
        invariant conn.flushes == old(conn.flushes) + k / 20 && (k > 0 ==> queued != [])
        decreases |queued|
      {
        var flush := FlushQueries();
        if flush == 1 {
          return 0, k;
        } else if flush == -1 {
          return -1, k;
        }
        ghost var n := if |queued| < 20 then |queued| else 20;
        TakeMore(old(queued), k, n);
        var ok := DispatchBatch();
        if !ok {
          return -1, k;
        }
        k := k + n;
        if queued == [] {
          break;
        }
      }
      StopWatching();
      rv := 0;
    }

    method FlushQueries() returns (rv: int)
      requires Valid()
      modifies conn`flushes, conn`blocks, conn`failures
      ensures Valid() && -1 <= rv <= 1
      ensures conn.flushes == old(conn.flushes) + 1
      ensures conn.blocks == old(conn.blocks) + if rv == 1 then 1 else 0
      ensures conn.failures == old(conn.failures) + if rv == -1 then 1 else 0
    {
      rv := conn.Flush();
    }

    method StopWatching()
      requires Valid() && queued == []
      modifies this`watching
      ensures Valid() && !watching
    {
      watching := false;
    }
  }
}
