/** The router object (src/httprouter.h, src/httprouter.cc) and the lookup of a captured parameter by
    name (`get_param` in src/httprequest.h). */
module Routers {
  import opened Options
  import opened RoutePaths
  import opened RouteTrie
  import opened RouteTable

  class HttpRouter {
    var root: RouteNode
    var routePaths: seq<string>
    ghost var table: seq<Route>

    ghost predicate Valid()
      reads this
    {
      && root == Build(table) && RootOnlyOnTop(root) && root.data.kind == ROOT
      && |routePaths| == |table|
      && forall i :: 0 <= i < |table| ==> IsPattern(routePaths[i]) && Pattern(routePaths[i]) == table[i].pattern
    }

    constructor ()
      ensures Valid() && table == []
    {
      root, routePaths, table := EMPTY_ROOT, [], [];
    }

    method AddRoute(m: Method, path: string)
      requires Valid() && IsPattern(path)
      modifies this
      ensures Valid()
      ensures table == old(table) + [Route(m, Pattern(path))] && routePaths == old(routePaths) + [path]
    {
      hide Pattern, Inserted, RootOnlyOnTop, IsPattern;
      var n := |routePaths|;
      routePaths := routePaths + [path];
      root := InsertPath(root, m, path, n);
      table := table + [Route(m, Pattern(path))];
      assert table[..n] == old(table);
      PatternHasNoRoot(path);
      InsertedKeepsShape(old(root), m, Pattern(path), n);
    }

    /** `dispatch_route`: the captures start empty. */
    method DispatchRoute(m: Method, path: string, vars: Captures) returns (r: Hit)
      requires Valid() && IsPath(path)
      modifies vars
      ensures var a := Lookup(Build(table), m, path); r == HitOf(a) && vars.items == a.Captures()
    {
      vars.items := [];
      r := Match(root, m, path, vars);
    }
  }

  lemma PatternHasNoRoot(path: string)
    requires IsPattern(path)
    ensures forall d :: d in Pattern(path) ==> d.kind != ROOT
  {
    hide ParseLevel;
    if LevelOf(path) != "" {
      forall d | d in Pattern(path)
        ensures d.kind != ROOT
      {
        var i :| 0 <= i < |Pattern(path)| && Pattern(path)[i] == d;
        assert d == ParseLevel(Levels(path)[i]);
      }
    }
  }

  lemma {:induction false} InsertedKeepsShape(node: RouteNode, m: Method, p: seq<NodeData>, index: nat)
    requires RootOnlyOnTop(node) && forall d :: d in p ==> d.kind != ROOT
    ensures RootOnlyOnTop(Inserted(node, m, p, index)) && Inserted(node, m, p, index).data == node.data
    decreases |p|
  {
    if p != [] {
      var i := FindChild(node.children, p[0]);
      assert p[0] in p && forall d :: d in p[1..] ==> d in p;
      InsertedKeepsShape(if i == |node.children| then NewNode(p[0]) else node.children[i], m, p[1..], index);
    }
  }

  // ----- parameters by name ---------------------------------------------------------------

  /** `Missing` for no such parameter. Reading past the captures is undefined in C++. */
  datatype Param = Missing | Value(value: string) | PastTheEnd

  /** Counts opening braces up to the first one followed by the name. */
  function Placeholder(route: string, name: string): Option<nat>
    decreases |route|
  {
    var p := Find(route, '{', 0);
    if p == |route| then None
    else if name <= route[p + 1..] then Some(0)
    else Later(Placeholder(route[p + 1..], name))
  }

  function ParamOf(route: string, name: string, vars: seq<string>): Param {
    match Placeholder(route, name)
    case None => Missing
    case Some(i) => if i < |vars| then Value(vars[i]) else PastTheEnd
  }

  /** `get_param`. */
  method GetParam(path: string, name: string, vars: seq<string>) returns (r: Param)
    ensures r == ParamOf(path, name, vars)
  {
    var route, index := path, 0;
    while true
      invariant match Placeholder(route, name)
                case None => Placeholder(path, name) == None
                case Some(i) => Placeholder(path, name) == Some(i + index)
      invariant index >= 0
      decreases |route|
    {
      var pos := Find(route, '{', 0);
      if pos == |route| {
        return Missing;
      }
      if name <= route[pos + 1..] {
        return if index < |vars| then Value(vars[index]) else PastTheEnd;
      }
      route := route[pos + 1..];
      index := index + 1;
    }
  }

  predicate Free(s: string, c: char) {
    forall k :: 0 <= k < |s| ==> s[k] != c
  }

  /** Levels with braces only around a whole parameter. */
  predicate CleanLevel(level: string) {
    level != "" && (Free(level, '{') || (IsParam(ParseLevel(level)) && Free(level[1..], '{')))
  }

  /** The first level whose placeholder starts with the name. */
  function Asked(levels: seq<string>, name: string): (i: Option<nat>)
    ensures i.Some? ==> i.value < |levels|
  {
    if levels == [] then None
    else if levels[0] != "" && levels[0][0] == '{' && name <= levels[0][1..] then Some(0)
    else Later(Asked(levels[1..], name))
  }

  lemma BracePrefix(l: string, name: string)
    ensures "{" + name <= l <==> l != "" && l[0] == '{' && name <= l[1..]
  {
    if l != "" {
      assert l == [l[0]] + l[1..];
    }
  }

  /** The first level that opens a brace followed by the name. */
  lemma {:induction false} AskedIsTheFirst(levels: seq<string>, name: string)
    ensures match Asked(levels, name)
            case None => forall i :: 0 <= i < |levels| ==> !("{" + name <= levels[i])
            case Some(k) =>
              && k < |levels| && "{" + name <= levels[k]
              && forall i :: 0 <= i < k ==> !("{" + name <= levels[i])
  {
    if levels != [] {
      AskedIsTheFirst(levels[1..], name);
      var l := levels[0];
      BracePrefix(l, name);
      assert forall i :: 1 <= i < |levels| ==> levels[i] == levels[1..][i - 1];
      assert forall i :: 0 <= i < |levels| - 1 ==> levels[1..][i] == levels[i + 1];
    }
  }

  lemma FindSkips(a: string, b: string, c: char, from: nat)
    requires Free(a, c) && from <= |a|
    ensures Find(a + b, c, from) == |a| + Find(b, c, 0)
  {
    var (i, j) := (Find(a + b, c, from), Find(b, c, 0));
    assert forall k :: from <= k < |a| ==> (a + b)[k] == a[k];
    assert forall k :: 0 <= k < |b| ==> (a + b)[|a| + k] == b[k];
  }

  lemma PlaceholderSkips(a: string, b: string, name: string)
    requires Free(a, '{')
    ensures Placeholder(a + b, name) == Placeholder(b, name)
  {
    FindSkips(a, b, '{', 0);
    var p := Find(b, '{', 0);
    if p < |b| {
      assert (a + b)[|a| + p + 1..] == b[p + 1..];
    }
  }

  /** A name without a closing brace cannot reach beyond its placeholder. */
  lemma NameStaysInside(name: string, inside: string, after: string)
    requires Free(name, '}') && inside != "" && inside[|inside| - 1] == '}'
    ensures name <= inside + after <==> name <= inside
  {
    assert (inside + after)[|inside| - 1] == '}';
  }

  /** Reading the captures at a placeholder gives the level it stands at. */
  ghost predicate Points(asked: Option<nat>, placeholder: Option<nat>, vars: seq<string>, levels: seq<string>) {
    match asked
    case None => placeholder == None
    case Some(i) =>
      placeholder.Some? && placeholder.value < |vars| && i < |levels| && vars[placeholder.value] == levels[i]
  }

  function Later(i: Option<nat>): Option<nat> {
    match i case None => None case Some(i) => Some(i + 1)
  }

  lemma PointsStep(asked: Option<nat>, p: Option<nat>, vars: seq<string>, levels: seq<string>, level: string)
    requires Points(asked, p, vars, levels)
    ensures Points(Later(asked), p, vars, [level] + levels)
    ensures Points(Later(asked), Later(p), [level] + vars, [level] + levels)
  {
  }

  /** The captures of a match are indexed by the braces of its route: for any name without a closing
      brace, what `get_param` reads is the level of the first placeholder that starts with it. */
  lemma {:induction false} PlaceholderOfLevel(route: string, name: string, levels: seq<string>)
    requires IsPath(route) && Free(name, '}')
    requires forall l :: l in Levels(route) ==> CleanLevel(l)
    requires |Levels(route)| <= |levels|
    ensures "" !in Levels(route)
    ensures var vars := ParamLevels(ParseLevels(Levels(route)), levels);
            Points(Asked(Levels(route), name), Placeholder(route, name), vars, levels)
    decreases |route|
  {
    CleanNotEmpty(Levels(route));
    if route == "/" {
      SlashAlone(name);
    } else {
      hide CleanLevel, Placeholder, ParseLevel, Levels, Points, Free;
      var (l, next, ls) := (LevelOf(route), NextOf(route), Levels(route));
      LevelsStep(route);
      PlaceholderOfLevel(next, name, levels[1..]);
      FirstPlaceholder(route, name);
      CapturedByClean(l, levels[0]);
      ParamLevelsStep(ls, levels);
      var vars' := ParamLevels(ParseLevels(ls[1..]), levels[1..]);
      PointsThrough(ls, name, Placeholder(next, name), vars', levels);
    }
  }

  /** One more level in front of the route. */
  lemma PointsThrough(ls: seq<string>, name: string, p: Option<nat>, vars: seq<string>, levels: seq<string>)
    requires ls != [] && levels != [] && ls[0] != ""
    requires Points(Asked(ls[1..], name), p, vars, levels[1..])
    ensures var l := ls[0];
            Points(Asked(ls, name),
                   if l[0] != '{' then p else if name <= l[1..] then Some(0) else Later(p),
                   (if l[0] == '{' then [levels[0]] else []) + vars, levels)
  {
    hide Points;
    PointsStep(Asked(ls[1..], name), p, vars, levels[1..], levels[0]);
    assert [levels[0]] + levels[1..] == levels && [] + vars == vars;
    if ls[0][0] == '{' && name <= ls[0][1..] {
      PointsHere([levels[0]] + vars, levels);
    }
  }

  lemma PointsHere(vars: seq<string>, levels: seq<string>)
    requires vars != [] && levels != [] && vars[0] == levels[0]
    ensures Points(Some(0), Some(0), vars, levels)
  {
  }

  lemma CleanNotEmpty(ls: seq<string>)
    requires forall l :: l in ls ==> CleanLevel(l)
    ensures "" !in ls
  {
    forall l | l in ls
      ensures l != ""
    {
      assert CleanLevel(l);
    }
  }

  lemma LevelsStep(route: string)
    requires IsPath(route) && route != "/"
    ensures Levels(route) == [LevelOf(route)] + Levels(NextOf(route))
    ensures Levels(route)[0] == LevelOf(route) && Levels(route)[1..] == Levels(NextOf(route))
    ensures LevelOf(route) in Levels(route) && forall x :: x in Levels(NextOf(route)) ==> x in Levels(route)
  {
    assert Levels(route)[1..] == Levels(NextOf(route));
  }

  lemma ParamLevelsStep(ls: seq<string>, levels: seq<string>)
    requires ls != [] && "" !in ls && |ls| <= |levels|
    ensures "" !in ls[1..]
    ensures ParamLevels(ParseLevels(ls), levels)
         == Captured(ParseLevel(ls[0]), levels[0]) + ParamLevels(ParseLevels(ls[1..]), levels[1..])
  {
    assert ParseLevels(ls)[1..] == ParseLevels(ls[1..]);
  }

  lemma CapturedByClean(l: string, level: string)
    requires CleanLevel(l)
    ensures Captured(ParseLevel(l), level) == if l[0] == '{' then [level] else []
  {
  }

  lemma RestOfRoute(route: string)
    requires IsPath(route) && route != "/"
    ensures var (l, next) := (LevelOf(route), NextOf(route));
            && route == "/" + l + route[1 + |l|..]
            && (route[1 + |l|..] == next || (route[1 + |l|..] == "" && next == "/"))
  {
  }

  lemma SlashAlone(name: string)
    ensures Placeholder("/", name) == None == Placeholder("", name)
  {
    assert Find("/", '{', 0) == 1;
  }

  /** Clean levels have a brace exactly when they are a placeholder, and then one. */
  lemma FirstPlaceholder(route: string, name: string)
    requires IsPath(route) && route != "/" && Free(name, '}') && LevelOf(route) != "" && CleanLevel(LevelOf(route))
    ensures var (l, next) := (LevelOf(route), Placeholder(NextOf(route), name));
            Placeholder(route, name) ==
              if l[0] != '{' then next
              else if name <= l[1..] then Some(0)
              else Later(next)
  {
    hide Levels, CleanLevel, Placeholder;
    var (l, next) := (LevelOf(route), NextOf(route));
    var rest := route[1 + |l|..];
    RestOfRoute(route);
    SlashAlone(name);
    assert Placeholder(rest, name) == Placeholder(next, name);
    if l[0] != '{' {
      NoBrace(l);
      PlaceholderSkips("/" + l, rest, name);
    } else {
      ClosesWithBrace(l);
      PlaceholderHere(l[1..], rest, name);
      assert "/" + ("{" + l[1..] + rest) == route;
    }
  }

  lemma NoBrace(l: string)
    requires l != "" && CleanLevel(l) && l[0] != '{'
    ensures Free("/" + l, '{')
  {
  }

  lemma ClosesWithBrace(l: string)
    requires l != "" && CleanLevel(l) && l[0] == '{'
    ensures |l| >= 2 && l[|l| - 1] == '}' && Free(l[1..], '{')
  {
  }

  lemma PlaceholderHere(inside: string, rest: string, name: string)
    requires inside != "" && inside[|inside| - 1] == '}' && Free(inside, '{') && Free(name, '}')
    ensures Placeholder("/" + ("{" + inside + rest), name) ==
              if name <= inside then Some(0)
              else Later(Placeholder(rest, name))
  {
    var t := "{" + inside + rest;
    BraceSecond(inside, rest);
    NameStaysInside(name, inside, rest);
    PlaceholderSkips(inside, rest, name);
  }

  lemma BraceSecond(inside: string, rest: string)
    ensures var route := "/" + ("{" + inside + rest); Find(route, '{', 0) == 1 && route[2..] == inside + rest
  {
    var t := "{" + inside + rest;
    FindSkips("/", t, '{', 0);
    assert Find(t, '{', 0) == 0;
  }

  /** A pattern with braces only around whole levels. */
  ghost predicate CleanRoute(route: string) {
    IsPattern(route) && forall l :: l in Levels(route) ==> CleanLevel(l)
  }

  /** What a handler means by a name: the path level at the first placeholder that starts with it. */
  function LevelAsked(route: string, name: string, levels: seq<string>): Param
    requires IsPath(route)
  {
    match Asked(Levels(route), name)
    case None => Missing
    case Some(i) => if i < |levels| then Value(levels[i]) else PastTheEnd
  }

  /** With the captures of a match of a clean pattern, `get_param` returns that level, and nothing exactly
      when there is no such placeholder. */
  lemma {:induction false} ParamByName(route: string, name: string, levels: seq<string>)
    requires CleanRoute(route) && Free(name, '}')
    requires |Pattern(route)| <= |levels|
    ensures ParamOf(route, name, ParamLevels(Pattern(route), levels)) == LevelAsked(route, name, levels)
  {
    PatternOfClean(route);
    PlaceholderOfLevel(route, name, levels);
  }

  lemma PatternOfClean(route: string)
    requires CleanRoute(route)
    ensures "" !in Levels(route) && Pattern(route) == ParseLevels(Levels(route))
  {
    CleanNotEmpty(Levels(route));
    if route != "/" {
      LevelsStep(route);
    }
  }
}
