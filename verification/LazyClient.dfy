/** The second client (src/test_db.cc): the same batches, but a sync point leaves the dispatched
    queries at its sync mark and not at its NULL. Queries need not be sync points here. */
module LazyClients {
  import opened Options
  import opened PipelineRules
  import opened Pipeline

  /** The answers outstanding are those of the dispatched queries; of the first, perhaps only the mark. */
  ghost predicate Awaited(pending: seq<Item>, dispatched: seq<Query>) {
    || Answers(pending, dispatched)
    || (dispatched != [] && dispatched[0].sync && pending != [] && pending[0] == SyncMark
        && Answers(pending[1..], dispatched[1..]))
  }

  lemma AwaitedSnoc(pending: seq<Item>, dispatched: seq<Query>, q: Query, outcome: Outcome)
    requires Awaited(pending, dispatched)
    ensures Awaited(pending + Answer(q, outcome), dispatched + [q])
  {
    hide Answers, Answer;
    if Answers(pending, dispatched) {
      AnswersSnoc(pending, dispatched, q, outcome);
    } else {
      AnswersSnoc(pending[1..], dispatched[1..], q, outcome);
      assert (pending + Answer(q, outcome))[1..] == pending[1..] + Answer(q, outcome);
      assert (dispatched + [q])[1..] == dispatched[1..] + [q];
    }
  }

  /** The next item is for the front query: a result of its own, or the mark of a sync point. */
  lemma AwaitedTail(pending: seq<Item>, dispatched: seq<Query>)
    requires Awaited(pending, dispatched) && dispatched != []
    ensures pending != []
    ensures pending[0].SyncMark? ==> dispatched[0].sync && Awaited(pending[1..], dispatched[1..])
    ensures pending[0].Result? ==>
      && pending[0].of == dispatched[0].id
      && Awaited(pending[1..], if dispatched[0].sync then dispatched else dispatched[1..])
  {
    if pending[0].Result? && dispatched[0].sync {
      assert pending[1..][1..] == pending[2..];
    }
  }

  class LazyClient {
    const conn: Connection
    var queued: seq<Query>
    var dispatched: seq<Query>
    /** The callback calls made, in order. */
    ghost var delivered: seq<Delivery>

    ghost predicate Valid()
      reads this, conn
    {
      !conn.nullDue && Awaited(conn.Pending(), dispatched)
    }

    ghost function Reading(): Reader
      reads this, conn
    {
      Reader(dispatched, conn.arrived, delivered)
    }

    constructor (queries: seq<Query>)
      ensures Valid() && queued == queries && dispatched == [] && delivered == [] && fresh(conn)
    {
      conn := new Connection();
      queued, dispatched, delivered := queries, [], [];
    }

    /** The loop body of `write`. */
    method DispatchFront() returns (ok: bool)
      requires Valid() && queued != []
      modifies this`queued, this`dispatched, conn`inFlight, conn`aborted, conn`answered, conn`failures
      ensures ok ==> Valid() && queued == old(queued)[1..] && dispatched == old(dispatched) + [old(queued)[0]]
    {
      hide Answers;
      var q := queued[0];
      var sent, outcome := conn.SendQuery(q);
      if !sent {
        return false;
      }
      if q.sync {
        var synced := conn.PipelineSync();
        if !synced {
          return false;
        }
      }
      assert conn.Pending() == old(conn.Pending()) + Answer(q, outcome);
      AwaitedSnoc(old(conn.Pending()), dispatched, q, outcome);
      dispatched := dispatched + [q];
      queued := queued[1..];
      ok := true;
    }

    /** The inner loop of `read`: takes results up to the NULL or a sync mark. */
    method ReadResults(query: Query) returns (pipelineSync: bool)
      requires !conn.IsBusy() && !conn.nullDue && conn.arrived != []
      modifies this`delivered, conn`arrived, conn`nullDue, conn`taken
      ensures !conn.nullDue && conn.arrived == old(conn.arrived)[1..]
      ensures pipelineSync == (old(conn.arrived)[0] == SyncMark)
      ensures delivered == old(delivered) +
        if pipelineSync || old(conn.arrived)[0].outcome == Empty then []
        else [Delivery(query, old(conn.arrived)[0].outcome, old(conn.arrived)[0].of)]
    {
      pipelineSync := false;
      ghost var first := true;
      var result := conn.GetResult();
      while result.Some?
        invariant conn.arrived == old(conn.arrived)[1..] && !pipelineSync
        invariant first ==>
          && result == Some(old(conn.arrived)[0]) && conn.nullDue == result.value.Result?
          && delivered == old(delivered)
        invariant !first ==>
          && result == None && !conn.nullDue && old(conn.arrived)[0].Result?
          && delivered == old(delivered) +
             if old(conn.arrived)[0].outcome == Empty then []
             else [Delivery(query, old(conn.arrived)[0].outcome, old(conn.arrived)[0].of)]
        decreases first
      {
        first := false;
        match result.value {
          case SyncMark =>
            pipelineSync := true;
            break;
          case Result(outcome, of) =>
            // no callback for PGRES_EMPTY_QUERY
            if outcome != Empty {
              delivered := delivered + [Delivery(query, outcome, of)];
            }
        }
        result := conn.GetResult();
      }
    }

    /** One round of `read`. */
    method ReadRound()
      requires Valid() && !conn.IsBusy() && dispatched != []
      modifies this`dispatched, this`delivered, conn`arrived, conn`nullDue, conn`taken
      ensures Valid() && old(conn.arrived) != [] && Reading() == LazyRound(old(Reading()))
    {
      hide Awaited, Answers;
      ghost var before := conn.Pending();
      AwaitedTail(before, dispatched);
      var query := dispatched[0];
      assert before[0] == conn.arrived[0];
      var pipelineSync := ReadResults(query);
      assert conn.Pending() == before[1..];
      // a sync point waits for its mark
      if !query.sync || pipelineSync {
        dispatched := dispatched[1..];
      }
    }

    /** `read`: exactly the lazy rule on whatever has arrived. It looks at the front query without
        asking whether there is one. */
    method Read() returns (rv: int, ghost n: nat)
      requires Valid() && dispatched != []
      modifies this`dispatched, this`delivered
      modifies conn`arrived, conn`inFlight, conn`nullDue, conn`taken, conn`polls, conn`pollFailed
      ensures (rv == 0 || rv == -1) && Valid()
      ensures conn.polls == old(conn.polls) + 1 && (rv == -1 <==> conn.pollFailed)
      ensures n <= |old(conn.inFlight)|
      ensures rv == 0 ==>
        Reading() == LazyRead(Reader(old(dispatched), old(conn.Pending())[..|old(conn.arrived)| + n], old(delivered)))
    {
      hide Answers, Awaited, LazyRead, LazyRound;
      var ok, arrived := conn.ConsumeInput();
      n := arrived;
      assert conn.Pending() == old(conn.Pending());
      if !ok {
        return -1, n;
      }
      assert conn.arrived == old(conn.Pending())[..|old(conn.arrived)| + n];
      ghost var start := Reading();
      while !conn.IsBusy()
        invariant Valid() && dispatched != [] && conn.polls == old(conn.polls) + 1 && !conn.pollFailed
        invariant LazyRead(start) == LazyRead(Reading())
        decreases |conn.arrived|
      {
        LazyReadUnfolds(Reading());
        ReadRound();
        if dispatched == [] {
          return 0, n;
        }
      }
      LazyReadUnfolds(Reading());
      rv := 0;
    }
  }

  lemma LazyReadUnfolds(r: Reader)
    ensures LazyRead(r) ==
      if r.arrived == [] || r.dispatched == [] then r
      else if LazyRound(r).dispatched == [] then LazyRound(r)
      else LazyRead(LazyRound(r))
    ensures r.arrived != [] && r.dispatched != [] ==> |LazyRound(r).arrived| < |r.arrived|
  {
  }
}
