/** How results on a PostgreSQL pipeline are matched with the queries that were sent: the eager rule
    of src/dbsession.cc, the lazy rule of src/test_db.cc, and the proof that they deliver the same.

    On the wire every query has one result, and every sync point has a sync mark after it. libpq
    follows a result, but not a sync mark, by the NULL that ends the query. */
module PipelineRules {
  import opened Sequences

  datatype Command = Simple(text: string) | Prepare(name: string) | Execute(name: string)

  /** `id` is the position in submission order, `stream` the serial of the submitting stream. */
  datatype Query = Query(id: nat, stream: nat, sync: bool, command: Command)

  /** `Empty` is PGRES_EMPTY_QUERY, for which no handler runs. */
  datatype Outcome = Done | Failed | Aborted | Empty

  /** `of` is the id of the query the server answered. */
  datatype Item = Result(outcome: Outcome, of: nat) | SyncMark

  /** A result handed to the handler of a query. */
  datatype Delivery = Delivery(query: Query, outcome: Outcome, of: nat)

  function Deliver(q: Query, r: Item): seq<Delivery>
    requires r.Result?
  {
    if r.outcome == Empty then [] else [Delivery(q, r.outcome, r.of)]
  }

  // ----- what the server sends ------------------------------------------------------------

  function Answer(q: Query, outcome: Outcome): seq<Item> {
    [Result(outcome, q.id)] + if q.sync then [SyncMark] else []
  }

  function Span(q: Query): nat {
    if q.sync then 2 else 1
  }

  /** `items` answers the queries in order, each once, with the sync marks where they belong. */
  ghost predicate Answers(items: seq<Item>, queries: seq<Query>)
    decreases |queries|
  {
    if queries == [] then items == []
    else
      var q := queries[0];
      && |items| >= Span(q) && items[0].Result? && items[0].of == q.id
      && (q.sync ==> items[1] == SyncMark)
      && Answers(items[Span(q)..], queries[1..])
  }

  /** The deliveries those answers call for: each query gets its own. */
  ghost function Owed(items: seq<Item>, queries: seq<Query>): seq<Delivery>
    requires Answers(items, queries)
    decreases |queries|
  {
    if queries == [] then []
    else Deliver(queries[0], items[0]) + Owed(items[Span(queries[0])..], queries[1..])
  }

  lemma {:induction false} AnswersSnoc(items: seq<Item>, queries: seq<Query>, q: Query, outcome: Outcome)
    requires Answers(items, queries)
    ensures Answers(items + Answer(q, outcome), queries + [q])
    ensures Owed(items + Answer(q, outcome), queries + [q])
         == Owed(items, queries) + Deliver(q, Result(outcome, q.id))
    decreases |queries|
  {
    hide Deliver;
    if queries == [] {
      assert items + Answer(q, outcome) == Answer(q, outcome);
      assert queries + [q] == [q];
      assert Answer(q, outcome)[Span(q)..] == [];
    } else {
      var n := Span(queries[0]);
      AnswersSnoc(items[n..], queries[1..], q, outcome);
      assert (items + Answer(q, outcome))[n..] == items[n..] + Answer(q, outcome);
      assert (queries + [q])[1..] == queries[1..] + [q];
    }
  }

  /** Abort until sync: the outcome of each query, `fails[i]` saying whether query i fails by itself. */
  ghost function Serve(queries: seq<Query>, fails: seq<bool>, aborted: bool): (o: seq<Outcome>)
    requires |fails| == |queries|
    ensures |o| == |queries|
  {
    if queries == [] then []
    else
      [if aborted then Aborted else if fails[0] then Failed else Done]
      + Serve(queries[1..], fails[1..], !queries[0].sync && (aborted || fails[0]))
  }

  ghost predicate Unsynced(queries: seq<Query>, j: nat, i: nat)
    requires i <= |queries|
  {
    forall k :: j <= k < i ==> !queries[k].sync
  }

  /** A query is aborted exactly when an earlier one failed and no sync point stands between them. */
  lemma {:induction false} AbortedExactlyWhen(queries: seq<Query>, fails: seq<bool>, aborted: bool, i: nat)
    requires |fails| == |queries| && i < |queries|
    ensures Serve(queries, fails, aborted)[i] == Aborted <==>
      || (aborted && Unsynced(queries, 0, i))
      || exists j: nat :: j < i && fails[j] && Unsynced(queries, j, i)
  {
    if i > 0 {
      var qs, fs := queries[1..], fails[1..];
      var a := !queries[0].sync && (aborted || fails[0]);
      AbortedExactlyWhen(qs, fs, a, i - 1);
      assert Serve(queries, fails, aborted)[i] == Serve(qs, fs, a)[i - 1];
      forall j: nat {:trigger Unsynced(qs, j, i - 1)} {:trigger Unsynced(queries, j + 1, i)} | j <= i - 1
        ensures Unsynced(qs, j, i - 1) <==> Unsynced(queries, j + 1, i)
      {
        if Unsynced(qs, j, i - 1) {
          assert forall k :: j + 1 <= k < i ==> queries[k] == qs[k - 1];
        }
        if Unsynced(queries, j + 1, i) {
          assert forall k :: j <= k < i - 1 ==> qs[k] == queries[k + 1];
        }
      }
      if exists j: nat :: j < i && fails[j] && Unsynced(queries, j, i) {
        var j: nat :| j < i && fails[j] && Unsynced(queries, j, i);
        if j > 0 {
          assert fs[j - 1] && Unsynced(qs, j - 1, i - 1);
        } else {
          assert !queries[0].sync && Unsynced(queries, 1, i);
        }
      }
      if exists j: nat :: j < i - 1 && fs[j] && Unsynced(qs, j, i - 1) {
        var j: nat :| j < i - 1 && fs[j] && Unsynced(qs, j, i - 1);
        assert fails[j + 1] && Unsynced(queries, j + 1, i);
      }
      if a && Unsynced(qs, 0, i - 1) {
        assert Unsynced(queries, 0, i);
      }
    }
  }

  /** src/dbsession.cc marks every query as a sync point, so one failure never aborts another. */
  lemma NothingAbortsWhenEveryQuerySyncs(queries: seq<Query>, fails: seq<bool>, i: nat)
    requires |fails| == |queries| && i < |queries|
    requires forall q :: q in queries ==> q.sync
    ensures Serve(queries, fails, false)[i] != Aborted
  {
    AbortedExactlyWhen(queries, fails, false, i);
    forall j: nat | j < i && fails[j]
      ensures !Unsynced(queries, j, i)
    {
      assert queries[j].sync;
    }
  }

  // ----- the two reading rules ------------------------------------------------------------

  /** Queries dispatched and not popped, items libpq has received, results handed out so far. */
  datatype Reader = Reader(dispatched: seq<Query>, arrived: seq<Item>, delivered: seq<Delivery>)

  /** One round of `Session::read`: a result and its NULL pop the query, a sync mark pops nothing. */
  ghost function EagerRound(r: Reader): Reader
    requires r.arrived != []
  {
    if r.arrived[0].SyncMark? || r.dispatched == [] then r.(arrived := r.arrived[1..])
    else Reader(r.dispatched[1..], r.arrived[1..], r.delivered + Deliver(r.dispatched[0], r.arrived[0]))
  }

  /** Rounds go on until libpq is busy or no query is left. */
  ghost function EagerRead(r: Reader): Reader
    decreases |r.arrived|
  {
    if r.arrived == [] then r
    else
      var s := EagerRound(r);
      if s.dispatched == [] then s else EagerRead(s)
  }

  /** One round of the second client: a sync point is popped at its sync mark, others at the NULL. */
  ghost function LazyRound(r: Reader): Reader
    requires r.arrived != [] && r.dispatched != []
  {
    var q, i := r.dispatched[0], r.arrived[0];
    Reader(if !q.sync || i.SyncMark? then r.dispatched[1..] else r.dispatched, r.arrived[1..],
           r.delivered + if i.Result? then Deliver(q, i) else [])
  }

  ghost function LazyRead(r: Reader): Reader
    decreases |r.arrived|
  {
    if r.arrived == [] || r.dispatched == [] then r
    else
      var s := LazyRound(r);
      if s.dispatched == [] then s else LazyRead(s)
  }

  // ----- runs of both rules side by side --------------------------------------------------

  /** `Send`: a query goes out and the server will answer it. `Arrive(n)`: up to n more items reach
      the client, which reads. */
  datatype Event = Send(query: Query, outcome: Outcome) | Arrive(n: nat)

  /** `future` is on its way; `sent` is what every query must get. */
  datatype Both = Both(eager: Reader, lazy: Reader, future: seq<Item>, sent: seq<Delivery>)

  const START := Both(Reader([], [], []), Reader([], [], []), [], [])

  ghost function Next(b: Both, e: Event): Both {
    match e
    case Send(q, outcome) =>
      Both(b.eager.(dispatched := b.eager.dispatched + [q]),
           b.lazy.(dispatched := b.lazy.dispatched + [q]),
           b.future + Answer(q, outcome),
           b.sent + Deliver(q, Result(outcome, q.id)))
    case Arrive(m) =>
      var n := if m < |b.future| then m else |b.future|;
      Both(EagerRead(b.eager.(arrived := b.eager.arrived + b.future[..n])),
           LazyRead(b.lazy.(arrived := b.lazy.arrived + b.future[..n])),
           b.future[n..], b.sent)
  }

  ghost function After(b: Both, run: seq<Event>): Both
    decreases |run|
  {
    if run == [] then b else After(Next(b, run[0]), run[1..])
  }

  /** Both are at the same query, the eager client perhaps behind one sync mark. */
  ghost predicate InStep(e: Reader, l: Reader, future: seq<Item>, sent: seq<Delivery>) {
    && e.delivered == l.delivered && e.dispatched == l.dispatched
    && (e.arrived == l.arrived || e.arrived == [SyncMark] + l.arrived)
    && Answers(l.arrived + future, e.dispatched)
    && e.delivered + Owed(l.arrived + future, e.dispatched) == sent
  }

  /** The lazy client waits for the sync mark of a query the eager one has popped. */
  ghost predicate Waiting(e: Reader, l: Reader, future: seq<Item>, sent: seq<Delivery>) {
    && e.delivered == l.delivered && e.arrived == l.arrived
    && l.dispatched != [] && l.dispatched[0].sync && l.dispatched[1..] == e.dispatched
    && l.arrived + future != [] && (l.arrived + future)[0] == SyncMark
    && Answers((l.arrived + future)[1..], e.dispatched)
    && e.delivered + Owed((l.arrived + future)[1..], e.dispatched) == sent
  }

  ghost predicate Together(b: Both) {
    InStep(b.eager, b.lazy, b.future, b.sent) || Waiting(b.eager, b.lazy, b.future, b.sent)
  }

  lemma ResultRound(e: Reader, l: Reader, future: seq<Item>, sent: seq<Delivery>)
    requires InStep(e, l, future, sent) && e.arrived == l.arrived && e.arrived != []
    ensures l.dispatched != []
    ensures !l.dispatched[0].sync ==> InStep(EagerRound(e), LazyRound(l), future, sent)
    ensures l.dispatched[0].sync ==> Waiting(EagerRound(e), LazyRound(l), future, sent)
  {
    var items := l.arrived + future;
    var q := l.dispatched[0];
    assert items[0] == l.arrived[0];
    assert l.arrived[1..] + future == items[1..];
    var owed := Owed(items[Span(q)..], e.dispatched[1..]);
    assert e.delivered + (Deliver(q, items[0]) + owed) == e.delivered + Deliver(q, items[0]) + owed;
    if q.sync {
      assert items[1..][1..] == items[2..];
    }
  }

  lemma SyncRound(e: Reader, l: Reader, future: seq<Item>, sent: seq<Delivery>)
    requires Waiting(e, l, future, sent) && e.arrived != []
    ensures InStep(EagerRound(e), LazyRound(l), future, sent)
    ensures EagerRound(e).arrived == LazyRound(l).arrived
  {
    var items := l.arrived + future;
    assert items[0] == l.arrived[0];
    assert l.arrived[1..] + future == items[1..];
  }

  lemma {:induction false} ReadTogether(b: Both)
    requires Together(b)
    ensures var b' := b.(eager := EagerRead(b.eager), lazy := LazyRead(b.lazy));
            Together(b') && b'.lazy.arrived == []
    decreases |b.eager.arrived|
  {
    hide Answers, Owed, Deliver;
    var (e, l) := (b.eager, b.lazy);
    if InStep(e, l, b.future, b.sent) && e.arrived != l.arrived {
      // one stray sync mark
      var e' := EagerRound(e);
      assert e' == e.(arrived := l.arrived);
      if e'.dispatched == [] {
        NothingOwed(l.arrived + b.future);
      } else {
        ReadTogether(b.(eager := e'));
      }
    } else if e.arrived == [] {
    } else {
      if InStep(e, l, b.future, b.sent) {
        ResultRound(e, l, b.future, b.sent);
      }
      var (e', l') := (EagerRound(e), LazyRound(l));
      if InStep(e, l, b.future, b.sent) {
        if e'.dispatched == [] && l'.dispatched == [] {
          NothingOwed(l'.arrived + b.future);
        } else if e'.dispatched == [] {
          // popped by the eager rule, waiting under the lazy one
          if l'.arrived != [] {
            SyncRound(e', l', b.future, b.sent);
            NothingOwed(LazyRound(l').arrived + b.future);
          }
        } else {
          ReadTogether(b.(eager := e', lazy := l'));
        }
      } else {
        SyncRound(e, l, b.future, b.sent);
        if e'.dispatched == [] {
          NothingOwed(l'.arrived + b.future);
        } else {
          ReadTogether(b.(eager := e', lazy := l'));
        }
      }
    }
  }

  lemma NothingOwed(items: seq<Item>)
    ensures Answers(items, []) ==> items == []
  {
  }

  lemma SendTogether(b: Both, q: Query, outcome: Outcome)
    requires Together(b) && b.lazy.arrived == []
    ensures Together(Next(b, Send(q, outcome)))
  {
    hide Answers, Owed, Deliver;
    var (e, l) := (b.eager, b.lazy);
    var more := Answer(q, outcome);
    assert l.arrived + b.future == b.future;
    assert l.arrived + (b.future + more) == b.future + more;
    if InStep(e, l, b.future, b.sent) {
      AnswersSnoc(b.future, e.dispatched, q, outcome);
    } else {
      AnswersSnoc(b.future[1..], e.dispatched, q, outcome);
      assert (b.future + more)[1..] == b.future[1..] + more;
      assert (l.dispatched + [q])[1..] == e.dispatched + [q];
    }
  }

  lemma ArriveTogether(b: Both, m: nat)
    requires Together(b) && b.lazy.arrived == []
    ensures Together(Next(b, Arrive(m))) && Next(b, Arrive(m)).lazy.arrived == []
  {
    hide Answers, Owed, Deliver, EagerRead, LazyRead;
    var n := if m < |b.future| then m else |b.future|;
    var now := b.future[..n];
    assert now + b.future[n..] == b.future == b.lazy.arrived + b.future;
    assert b.lazy.arrived + now == now && [SyncMark] + b.lazy.arrived + now == [SyncMark] + now;
    ReadTogether(Both(b.eager.(arrived := b.eager.arrived + now), b.lazy.(arrived := now), b.future[n..], b.sent));
  }

  lemma NextTogether(b: Both, e: Event)
    requires Together(b) && b.lazy.arrived == []
    ensures Together(Next(b, e)) && Next(b, e).lazy.arrived == []
  {
    hide Together;
    match e
    case Send(q, outcome) => SendTogether(b, q, outcome);
    case Arrive(m) => ArriveTogether(b, m);
  }

  /** What the queries of a run must get, in order, each its own result. */
  ghost function Due(run: seq<Event>): seq<Delivery> {
    if run == [] then []
    else DueFor(run[0]) + Due(run[1..])
  }

  ghost function DueFor(e: Event): seq<Delivery> {
    match e
    case Send(q, outcome) => if outcome == Empty then [] else [Delivery(q, outcome, q.id)]
    case Arrive(_) => []
  }

  /** The queries of a run whose answer is for their handler, with its outcome. */
  ghost function Answered(run: seq<Event>): seq<(Query, Outcome)> {
    if run == [] then []
    else
      (if run[0].Send? && run[0].outcome != Empty then [(run[0].query, run[0].outcome)] else []) + Answered(run[1..])
  }

  lemma {:induction false} DueIsAnswered(run: seq<Event>)
    ensures |Due(run)| == |Answered(run)|
    ensures forall i :: 0 <= i < |Due(run)| ==>
              var (q, outcome) := Answered(run)[i]; Due(run)[i] == Delivery(q, outcome, q.id)
  {
    if run != [] {
      DueIsAnswered(run[1..]);
    }
  }

  lemma NextSent(b: Both, e: Event)
    ensures Next(b, e).sent == b.sent + DueFor(e)
  {
    hide EagerRead, LazyRead;
  }

  lemma {:induction false} RunTogether(b: Both, run: seq<Event>)
    requires Together(b) && b.lazy.arrived == []
    ensures Together(After(b, run)) && After(b, run).lazy.arrived == []
    ensures After(b, run).sent == b.sent + Due(run)
    decreases |run|
  {
    hide Together, Next, DueFor;
    if run == [] {
      assert b.sent + [] == b.sent;
    } else {
      NextTogether(b, run[0]);
      NextSent(b, run[0]);
      RunTogether(Next(b, run[0]), run[1..]);
      Assoc(b.sent, DueFor(run[0]), Due(run[1..]));
    }
  }

  /** For every list of queries with any sync flags and every way the answers arrive, both rules
      have handed out the same results to the same queries in the same order at every moment: each query
      its own outcome, as the server sent it, and all of them once everything has arrived. */
  lemma EagerEqualsLazy(run: seq<Event>)
    ensures var b := After(START, run);
            && b.eager.delivered == b.lazy.delivered <= Due(run)
            && (b.future == [] ==> b.eager.delivered == b.lazy.delivered == Due(run))
            && |b.eager.delivered| <= |Answered(run)|
            && (b.future == [] ==> |b.eager.delivered| == |Answered(run)|)
            && (forall i :: 0 <= i < |b.eager.delivered| ==>
                  var (q, outcome) := Answered(run)[i]; b.eager.delivered[i] == Delivery(q, outcome, q.id))
  {
    DueIsAnswered(run);
    RunTogether(START, run);
    var b := After(START, run);
    assert b.lazy.arrived + b.future == b.future;
    assert b.sent == Due(run);
    assert b.eager.delivered <= b.sent;
  }
}
