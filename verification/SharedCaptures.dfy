/** Named parameters of dispatched requests. One capture vector serves all requests of a worker thread:
    every dispatch clears it (`dispatch_route` in src/httprouter.cc), and `get_param` in src/httprequest.h
    reads it whenever the handler gets to it. */
module SharedCaptures {
  import opened Options
  import opened RoutePaths
  import opened RouteTrie
  import opened RouteTable
  import opened Routers

  /** Clean routes, as many as an index can number, and nested. */
  ghost predicate Serves(paths: seq<string>, table: seq<Route>) {
    && |paths| == |table| <= 65536 && Nested(table)
    && forall i :: 0 <= i < |paths| ==> CleanRoute(paths[i]) && Pattern(paths[i]) == table[i].pattern
  }

  /** From the request to the parameter: a route of the method that matches a prefix of the levels is
      found exactly if there is one, it is the one that beats all others, in its latest registration,
      and with the captures of this match a name gives the level of this path that it stands for. */
  lemma {:induction false} DispatchedParameter(
    paths: seq<string>, table: seq<Route>, m: Method, path: string, name: string)
    returns (q: seq<NodeData>, k: nat)
    requires Serves(paths, table) && IsPath(path) && Free(name, '}')
    ensures var (a, levels) := (Lookup(Build(table), m, path), Levels(path));
            && (a == NoMatch <==> forall q' :: !Eligible(table, m, levels, q'))
            && (a != NoMatch ==>
                  && Eligible(table, m, levels, q) && IsLast(table, m, q, k)
                  && (forall q' :: Eligible(table, m, levels, q') ==> Wins(table, q, q'))
                  && |q| <= |levels| && a == Found(k, ParamLevels(q, levels))
                  && ParamOf(paths[k], name, ParamLevels(q, levels)) == LevelAsked(paths[k], name, levels)
                  && LevelAsked(paths[k], name, levels) != PastTheEnd)
  {
    hide Lookup, Build, Nested, CleanRoute, ParamOf, LevelAsked, Wins, Eligible, Pattern, IsPattern, Levels;
    q, k := RouterAnswers(table, m, path);
    if Lookup(Build(table), m, path) != NoMatch {
      IsPathOf(paths[k]);
      NotPastTheEnd(paths[k], name, Levels(path));
      ParamByName(paths[k], name, Levels(path));
    }
  }

  lemma IsPathOf(route: string)
    requires CleanRoute(route)
    ensures IsPath(route) && IsPattern(route)
  {
  }

  lemma NotPastTheEnd(route: string, name: string, levels: seq<string>)
    requires CleanRoute(route) && |Pattern(route)| <= |levels|
    ensures LevelAsked(route, name, levels) != PastTheEnd
  {
    PatternOfClean(route);
  }

  // ----- one thread, many requests --------------------------------------------------------

  /** The vector, and the handler index of every request that has been dispatched. */
  datatype Thread = Thread(vars: seq<string>, handlers: map<nat, nat>)

  const START := Thread([], map[])

  datatype Event = Dispatch(request: nat, verb: Method, path: string) | GetParam(request: nat, name: string)

  ghost predicate Sound(paths: seq<string>, t: Thread) {
    && (forall i :: 0 <= i < |paths| ==> IsPath(paths[i]))
    && (forall r :: r in t.handlers ==> t.handlers[r] < |paths|)
  }

  ghost predicate Enabled(t: Thread, e: Event) {
    match e
    case Dispatch(_, _, path) => IsPath(path)
    case GetParam(request, _) => request in t.handlers
  }

  /** Without a match the request keeps no handler; an unwritten index is no handler. */
  ghost function Next(table: seq<Route>, t: Thread, e: Event): Thread
    requires Enabled(t, e)
  {
    match e
    case Dispatch(request, m, path) =>
      (match Lookup(Build(table), m, path)
       case NoMatch => Thread([], t.handlers)
       case Found(index, captures) => Thread(captures, t.handlers[request := index])
       case Unset(captures) => Thread(captures, t.handlers - {request}))
    case GetParam(_, _) => t
  }

  /** What `get_param` returns. */
  ghost function Got(paths: seq<string>, t: Thread, request: nat, name: string): Param
    requires Sound(paths, t) && request in t.handlers
  {
    ParamOf(paths[t.handlers[request]], name, t.vars)
  }

  ghost predicate IsRun(table: seq<Route>, t: Thread, run: seq<Event>)
    decreases |run|
  {
    run == [] || (Enabled(t, run[0]) && IsRun(table, Next(table, t, run[0]), run[1..]))
  }

  ghost function After(table: seq<Route>, t: Thread, run: seq<Event>): Thread
    requires IsRun(table, t, run)
    decreases |run|
  {
    if run == [] then t else After(table, Next(table, t, run[0]), run[1..])
  }

  ghost predicate DispatchFree(run: seq<Event>) {
    forall i :: 0 <= i < |run| ==> run[i].GetParam?
  }

  lemma NextKeeps(paths: seq<string>, table: seq<Route>, t: Thread, e: Event)
    requires Serves(paths, table) && Sound(paths, t) && Enabled(t, e)
    ensures Sound(paths, Next(table, t, e))
  {
    hide Lookup, Build, Nested, CleanRoute, Wins, Eligible;
    if e.Dispatch? {
      var q, k := RouterAnswers(table, e.verb, e.path);
    }
  }

  lemma {:induction false} RunKeeps(paths: seq<string>, table: seq<Route>, t: Thread, run: seq<Event>)
    requires Serves(paths, table) && Sound(paths, t) && IsRun(table, t, run)
    ensures Sound(paths, After(table, t, run))
    decreases |run|
  {
    hide Serves, Sound, Next, Enabled;
    if run != [] {
      NextKeeps(paths, table, t, run[0]);
      RunKeeps(paths, table, Next(table, t, run[0]), run[1..]);
    }
  }

  lemma {:induction false} ReadsChangeNothing(table: seq<Route>, t: Thread, run: seq<Event>)
    requires IsRun(table, t, run) && DispatchFree(run)
    ensures After(table, t, run) == t
    decreases |run|
  {
    if run != [] {
      assert forall i :: 0 <= i < |run[1..]| ==> run[1..][i] == run[i + 1];
      ReadsChangeNothing(table, Next(table, t, run[0]), run[1..]);
    }
  }

  lemma {:induction false} RunAppend(table: seq<Route>, t: Thread, run: seq<Event>, more: seq<Event>)
    requires IsRun(table, t, run + more)
    ensures IsRun(table, t, run) && IsRun(table, After(table, t, run), more)
    ensures After(table, t, run + more) == After(table, After(table, t, run), more)
    decreases |run|
  {
    hide Next, Enabled;
    if run == [] {
      assert run + more == more;
    } else {
      assert (run + more)[1..] == run[1..] + more;
      RunAppend(table, Next(table, t, run[0]), run[1..], more);
    }
  }

  /** Over all runs: as long as no dispatch comes after its own, a request reads the levels of its own
      path by name. */
  lemma {:induction false} OwnLevelsUntilTheNextDispatch(
    paths: seq<string>, table: seq<Route>, before: seq<Event>, d: Event, after: seq<Event>, name: string)
    requires Serves(paths, table) && d.Dispatch? && DispatchFree(after) && Free(name, '}')
    requires IsRun(table, START, before + [d] + after) && IsPath(d.path)
    requires Lookup(Build(table), d.verb, d.path) != NoMatch
    ensures var t := After(table, START, before + [d] + after);
            && Sound(paths, t) && d.request in t.handlers
            && Got(paths, t, d.request, name) == LevelAsked(paths[t.handlers[d.request]], name, Levels(d.path))
  {
    RunKeeps(paths, table, START, before + [d] + after);
    RunAppend(table, START, before + [d], after);
    RunAppend(table, START, before, [d]);
    var t := After(table, START, before);
    assert [d][1..] == [];
    assert After(table, t, [d]) == Next(table, t, d);
    ReadsChangeNothing(table, Next(table, t, d), after);
    var q, k := DispatchedParameter(paths, table, d.verb, d.path, name);
  }

  /** After that it reads with the captures of the latest dispatch, whosever that is: another request's
      level, or past the end. */
  lemma ThenTheLatestDispatch(
    paths: seq<string>, table: seq<Route>, t: Thread, request: nat, between: seq<Event>, e: Event, after: seq<Event>,
    name: string)
    requires Serves(paths, table) && Sound(paths, t) && request in t.handlers
    requires IsRun(table, t, between + [e] + after) && e.Dispatch? && IsPath(e.path) && DispatchFree(after)
    requires forall x :: x in between + [e] && x.Dispatch? ==> x.request != request
    ensures var u := After(table, t, between + [e] + after);
            && Sound(paths, u) && request in u.handlers
            && Got(paths, u, request, name)
               == ParamOf(paths[t.handlers[request]], name, Lookup(Build(table), e.verb, e.path).Captures())
  {
    hide Lookup, Build, Serves, ParamOf;
    RunKeeps(paths, table, t, between + [e] + after);
    RunAppend(table, t, between + [e], after);
    RunAppend(table, t, between, [e]);
    assert forall x :: x in between ==> x in between + [e];
    HandlerStays(table, t, request, between);
    var u := After(table, t, between);
    assert [e][1..] == [] && e in between + [e];
    assert After(table, u, [e]) == Next(table, u, e);
    ReadsChangeNothing(table, Next(table, u, e), after);
  }

  lemma {:induction false} HandlerStays(table: seq<Route>, t: Thread, request: nat, run: seq<Event>)
    requires IsRun(table, t, run) && request in t.handlers
    requires forall x :: x in run && x.Dispatch? ==> x.request != request
    ensures var u := After(table, t, run); request in u.handlers && u.handlers[request] == t.handlers[request]
    decreases |run|
  {
    hide Lookup, Build;
    if run != [] {
      assert run[0] in run && forall x :: x in run[1..] ==> x in run;
      HandlerStays(table, Next(table, t, run[0]), request, run[1..]);
    }
  }

  /** The request of dispatch d still reads its own level after a dispatch e. */
  ghost predicate StillRight(paths: seq<string>, table: seq<Route>, t: Thread, d: Event, e: Event, name: string)
    requires d.Dispatch? && e.Dispatch? && IsPath(d.path) && IsPath(e.path)
  {
    var u := Next(table, Next(table, t, d), e);
    && Sound(paths, u) && d.request in u.handlers
    && Got(paths, u, d.request, name) == LevelAsked(paths[u.handlers[d.request]], name, Levels(d.path))
  }

  /** A name is safe from every later dispatch exactly if the route has no placeholder for it. */
  lemma {:induction false} SafeExactlyWhenNotAsked(
    paths: seq<string>, table: seq<Route>, t: Thread, d: Event, other: nat, name: string)
    requires Serves(paths, table) && Sound(paths, t) && d.Dispatch? && IsPath(d.path) && Free(name, '}')
    requires Lookup(Build(table), d.verb, d.path) != NoMatch && other != d.request
    ensures var u := Next(table, t, d);
            && Sound(paths, u) && d.request in u.handlers
            && ((forall m, path :: IsPath(path) ==> StillRight(paths, table, t, d, Dispatch(other, m, path), name))
                <==> Asked(Levels(paths[u.handlers[d.request]]), name) == None)
  {
    hide Lookup, Build, Serves, Levels, Placeholder;
    NextKeeps(paths, table, t, d);
    var q, index := DispatchedParameter(paths, table, d.verb, d.path, name);
    var u := Next(table, t, d);
    var k := u.handlers[d.request];
    forall m, path | IsPath(path)
      ensures StillRight(paths, table, t, d, Dispatch(other, m, path), name) <==>
              (ParamOf(paths[k], name, Lookup(Build(table), m, path).Captures())
               == LevelAsked(paths[k], name, Levels(d.path)))
    {
      NextKeeps(paths, table, u, Dispatch(other, m, path));
    }
    AskedExactlyWhen(paths, table, k, name);
    NoLevelsNoCaptures(table, GET);
    assert Asked(Levels(paths[k]), name) != None ==> !StillRight(paths, table, t, d, Dispatch(other, GET, "/"), name);
  }

  lemma AskedExactlyWhen(paths: seq<string>, table: seq<Route>, k: nat, name: string)
    requires Serves(paths, table) && k < |paths| && Free(name, '}')
    ensures Placeholder(paths[k], name) == None <==> Asked(Levels(paths[k]), name) == None
  {
    PlaceholderOfLevel(paths[k], name, Levels(paths[k]));
  }

  lemma NoLevelsNoCaptures(table: seq<Route>, m: Method)
    ensures Lookup(Build(table), m, "/").Captures() == []
  {
    assert Levels("/") == [];
  }

  /** One route, two requests: the first reads the level of the second, or past the end. */
  lemma AnotherRequestsLevel()
    ensures var (paths, table) := (["/{id}"], [Route(GET, [NodeData(PARAM_STRING, "id")])]);
            var first := Dispatch(0, GET, "/1");
            && Serves(paths, table)
            && LevelAsked("/{id}", "id", Levels("/1")) == Value("1")
            && IsRun(table, START, [first, Dispatch(1, GET, "/2")])
            && IsRun(table, START, [first, Dispatch(1, GET, "/")])
            && var t := After(table, START, [first, Dispatch(1, GET, "/2")]);
            && var u := After(table, START, [first, Dispatch(1, GET, "/")]);
            && Sound(paths, t) && Sound(paths, u) && 0 in t.handlers && 0 in u.handlers
            && Got(paths, t, 0, "id") == Value("2")
            && Got(paths, u, 0, "id") == PastTheEnd
  {
    hide Lookup, Build, Levels, Placeholder, Wins;
    var (paths, table) := (["/{id}"], [Route(GET, [NodeData(PARAM_STRING, "id")])]);
    OneRoute();
    OneDigit("/1", '1');
    OneDigit("/2", '2');
    NoLevelsNoCaptures(table, GET);
    var (first, second, third) := (Dispatch(0, GET, "/1"), Dispatch(1, GET, "/2"), Dispatch(1, GET, "/"));
    var t := Next(table, START, first);
    TwoSteps(table, first, second);
    TwoSteps(table, first, third);
    NextKeeps(paths, table, START, first);
    NextKeeps(paths, table, t, second);
    NextKeeps(paths, table, t, third);
  }

  lemma TwoSteps(table: seq<Route>, d: Event, e: Event)
    requires d.Dispatch? && e.Dispatch? && IsPath(d.path) && IsPath(e.path)
    ensures IsRun(table, START, [d, e]) && After(table, START, [d, e]) == Next(table, Next(table, START, d), e)
  {
    hide Next;
    var t := Next(table, START, d);
    assert [d, e][1..] == [e] && [e][1..] == [];
    assert Enabled(t, e) && IsRun(table, t, [e]) && After(table, t, [e]) == Next(table, t, e);
  }

  /** The one-route table. */
  lemma OneRoute()
    ensures Serves(["/{id}"], [Route(GET, [NodeData(PARAM_STRING, "id")])])
    ensures Levels("/{id}") == ["{id}"] && Placeholder("/{id}", "id") == Some(0)
  {
    hide Find, ParseLevel, Placeholder, CleanLevel;
    IdLevel();
    LevelsOfJoin(["{id}"]);
    assert Join(["{id}"]) == "/" + "{id}" + Join([]) == "/{id}";
    PatternOfClean("/{id}");
    PlaceholderHere("id}", "", "id");
    assert "/" + ("{" + "id}" + "") == "/{id}";
  }

  lemma IdLevel()
    ensures ParseLevel("{id}") == NodeData(PARAM_STRING, "id") && CleanLevel("{id}") && SlashFree("{id}")
  {
    assert "{id}"[1..] == "id}";
  }

  /** A path of one level is answered with that level. */
  lemma OneDigit(path: string, c: char)
    requires path == ['/', c] && c != '/'
    ensures Levels(path) == [[c]]
    ensures Lookup(Build([Route(GET, [NodeData(PARAM_STRING, "id")])]), GET, path) == Found(0, [[c]])
  {
    var (data, levels) := (NodeData(PARAM_STRING, "id"), [[c]]);
    var table := [Route(GET, [data])];
    LevelsOfJoin(levels);
    assert Join(levels) == "/" + [c] + Join([]) == path;
    assert [data][1..] == [] && levels[1..] == [];
    assert Matches([data], levels) && Route(GET, [data]) in table;
    assert Eligible(table, GET, levels, [data]);
    var q, k := RouterAnswers(table, GET, path);
    assert table[k].pattern == [data];
    assert ParamLevels([data], levels) == [[c]] + ParamLevels([], []);
  }

  // ----- the code -------------------------------------------------------------------------

  /** A worker thread, with the router it serves. */
  class WorkerThread {
    const router: HttpRouter
    const vars: Captures
    var handlers: map<nat, nat>

    ghost predicate Valid()
      reads this, router, vars
    {
      router.Valid() && Serves(router.routePaths, router.table) && Sound(router.routePaths, State())
    }

    ghost function State(): Thread
      reads this, vars
    {
      Thread(vars.items, handlers)
    }

    constructor (router: HttpRouter)
      requires router.Valid() && Serves(router.routePaths, router.table)
      ensures Valid() && this.router == router && State() == START && fresh(vars)
    {
      this.router := router;
      vars := new Captures();
      handlers := map[];
    }

    method Dispatch(request: nat, m: Method, path: string) returns (matched: bool)
      requires Valid() && IsPath(path)
      modifies this, vars
      ensures Valid() && State() == Next(router.table, old(State()), Event.Dispatch(request, m, path))
      ensures matched <==> exists q :: Eligible(router.table, m, Levels(path), q)
    {
      hide Lookup, Build, CleanRoute;
      ghost var q, k := RouterAnswers(router.table, m, path);
      NextKeeps(router.routePaths, router.table, State(), Event.Dispatch(request, m, path));
      var r := router.DispatchRoute(m, path, vars);
      matched := r != Npos;
      if r.Index? {
        handlers := handlers[request := r.index];
      }
    }

    method GetParam(request: nat, name: string) returns (r: Param)
      requires Valid() && request in handlers
      ensures r == Got(router.routePaths, State(), request, name)
    {
      r := Routers.GetParam(router.routePaths[handlers[request]], name, vars.items);
    }
  }
}
