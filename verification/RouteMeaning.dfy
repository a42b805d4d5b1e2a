/** What the text of a route means to a request, from pattern to answer, written out. */
module RouteMeaning {
  import opened RoutePaths
  import opened RouteTrie
  import opened RouteTable

  // ----- one level ------------------------------------------------------------------------

  /** A level that is not wrapped in braces matches itself alone. */
  lemma ConstantLevel(l: string, x: string)
    requires l != "" && !(l[0] == '{' && l[|l| - 1] == '}') && l != "*"
    ensures Accepts(ParseLevel(l), x) <==> x == l
    ensures Captured(ParseLevel(l), x) == []
  {
  }

  /** A star matches everything and captures nothing. */
  lemma StarLevel(x: string)
    ensures Accepts(ParseLevel("*"), x) && Captured(ParseLevel("*"), x) == []
  {
  }

  lemma FindAfter(a: string, b: string, c: char)
    requires c !in a
    ensures Find(a + b, c, 0) == |a| + Find(b, c, 0)
  {
    assert forall k :: 0 <= k < |a| ==> (a + b)[k] == a[k] && a[k] in a;
    assert forall k :: 0 <= k < |b| ==> (a + b)[|a| + k] == b[k];
  }

  /** A label in braces matches every level and captures it. */
  lemma LabelLevel(n: string, x: string)
    requires ':' !in n
    ensures Accepts(ParseLevel("{" + n + "}"), x)
    ensures Captured(ParseLevel("{" + n + "}"), x) == [x]
  {
    FindAfter("{" + n + "}", "", ':');
    assert "{" + n + "}" + "" == "{" + n + "}";
  }

  function KindOf(t: string): Kind {
    if t == "int" then PARAM_INT else if t == "float" then PARAM_FLOAT else PARAM_STRING
  }

  lemma TypedLevel(n: string, t: string)
    requires ':' !in n
    ensures ParseLevel("{" + n + ":" + t + "}") == NodeData(KindOf(t), n)
  {
    var level := "{" + n + ":" + t + "}";
    assert level == "{" + n + (":" + t + "}");
    FindAfter("{" + n, ":" + t + "}", ':');
    assert Find(":" + t + "}", ':', 0) == 0;
    assert level[|n| + 2..|level| - 1] == t && level[1..|n| + 1] == n;
  }

  /** `:int` matches exactly the strings of decimal digits and captures them. */
  lemma IntLevel(n: string, x: string)
    requires ':' !in n
    ensures Accepts(ParseLevel("{" + n + ":int}"), x) <==> forall k :: 0 <= k < |x| ==> '0' <= x[k] <= '9'
    ensures Captured(ParseLevel("{" + n + ":int}"), x) == [x]
  {
    TypedLevel(n, "int");
    assert "{" + n + ":" + "int" + "}" == "{" + n + ":int}";
  }

  /** `:float` matches exactly the strings of decimal digits with at most one dot and captures them. */
  lemma FloatLevel(n: string, x: string)
    requires ':' !in n
    ensures Accepts(ParseLevel("{" + n + ":float}"), x) <==>
            && (forall k :: 0 <= k < |x| ==> '0' <= x[k] <= '9' || x[k] == '.')
            && (forall i, j :: 0 <= i < j < |x| ==> x[i] != '.' || x[j] != '.')
    ensures Captured(ParseLevel("{" + n + ":float}"), x) == [x]
  {
    TypedLevel(n, "float");
    assert "{" + n + ":" + "float" + "}" == "{" + n + ":float}";
    OneDot(x);
  }

  lemma {:induction false} NoDot(x: string)
    ensures Dots(x) == 0 <==> forall k :: 0 <= k < |x| ==> x[k] != '.'
  {
    if x != "" {
      NoDot(x[1..]);
      assert forall k :: 1 <= k < |x| ==> x[k] == x[1..][k - 1];
      assert forall k :: 0 <= k < |x| - 1 ==> x[1..][k] == x[k + 1];
    }
  }

  lemma {:induction false} OneDot(x: string)
    ensures Dots(x) <= 1 <==> forall i, j :: 0 <= i < j < |x| ==> x[i] != '.' || x[j] != '.'
  {
    if x != "" {
      OneDot(x[1..]);
      NoDot(x[1..]);
      assert forall k :: 1 <= k < |x| ==> x[k] == x[1..][k - 1];
      assert forall k :: 0 <= k < |x| - 1 ==> x[1..][k] == x[k + 1];
    }
  }

  /** Any other type matches every level and captures it. */
  lemma OtherTypeLevel(n: string, t: string, x: string)
    requires ':' !in n && t != "int" && t != "float"
    ensures Accepts(ParseLevel("{" + n + ":" + t + "}"), x)
    ensures Captured(ParseLevel("{" + n + ":" + t + "}"), x) == [x]
  {
    TypedLevel(n, t);
  }

  // ----- one route ------------------------------------------------------------------------

  /** A level as it stands in a path. */
  predicate IsLevel(l: string) {
    l != "" && SlashFree(l)
  }

  lemma {:induction false} OneLevel(l: string)
    requires IsLevel(l)
    ensures IsPath("/" + l) && Levels("/" + l) == [l]
  {
    LevelsOfJoin([l]);
    assert Join([l]) == "/" + l + Join([]) == "/" + l;
  }

  lemma {:induction false} OneLevelPattern(l: string)
    requires IsLevel(l)
    ensures IsPattern("/" + l) && Pattern("/" + l) == [ParseLevel(l)]
  {
    OneLevel(l);
    assert LevelOf("/" + l) == l;
    assert ParseLevels([l])[1..] == [];
  }

  /** A table of one route of one level answers exactly the requests of its method whose first level it
      accepts. */
  lemma {:induction false} OneRoute(m: Method, l: string, m': Method, path: string)
    requires IsLevel(l) && IsPath(path)
    ensures IsPattern("/" + l)
    ensures var levels := Levels(path);
            Lookup(Build([Route(m, Pattern("/" + l))]), m', path) ==
              if m' == m && levels != [] && Accepts(ParseLevel(l), levels[0])
              then Found(0, Captured(ParseLevel(l), levels[0])) else NoMatch
  {
    OneLevelPattern(l);
    var (d, levels) := (ParseLevel(l), Levels(path));
    hide ParseLevel, Accepts, Captured, Build;
    OneChild(m, d);
    if m' == m && levels != [] {
      hide Lookup;
      LeafAnswers(m, d, 0, levels);
      RootAnswers(m, d, path);
    } else {
      assert Lookup(OneNode(m, d), m', path) == NoMatch;
    }
  }

  /** The leaf of one route, and the root above it. */
  function Leaf(m: Method, d: NodeData, index: nat): RouteNode {
    RouteNode(d, true, {m}, map[m := index], [])
  }

  function OneNode(m: Method, d: NodeData): RouteNode {
    RouteNode(EMPTY_ROOT.data, false, {m}, map[], [Leaf(m, d, 0)])
  }

  lemma OneChild(m: Method, d: NodeData)
    ensures Build([Route(m, [d])]) == OneNode(m, d)
  {
    var table := [Route(m, [d])];
    assert table[..0] == [] && [d][1..] == [];
    var leaf := Inserted(NewNode(d), m, [], 0);
    assert leaf.methods == {m} && leaf.routeIndex == map[m := 0] && leaf == Leaf(m, d, 0);
    var root := Inserted(EMPTY_ROOT, m, [d], 0);
    assert FindChild([], d) == 0;
    assert root.methods == {m} && root.children == [leaf];
    assert Build([]) == EMPTY_ROOT && Build(table) == Inserted(Build(table[..0]), m, [d], 0);
  }

  lemma {:induction false} LeafAnswers(m: Method, d: NodeData, index: nat, levels: seq<string>)
    requires levels != []
    ensures Visit(Leaf(m, d, index), m, levels) ==
            if Accepts(d, levels[0]) then Found(index, Captured(d, levels[0])) else NoMatch
  {
    hide Accepts, Captured;
    var (leaf, rest) := (Leaf(m, d, index), levels[1..]);
    assert leaf.children == [] && (rest != [] ==> FirstOf(leaf.children, m, rest) == NoMatch);
    assert Below(leaf, m, rest) == Found(index, []);
    assert Captured(d, levels[0]) + [] == Captured(d, levels[0]);
  }

  lemma {:induction false} RootAnswers(m: Method, d: NodeData, path: string)
    requires IsPath(path) && Levels(path) != []
    ensures Lookup(OneNode(m, d), m, path) == Visit(Leaf(m, d, 0), m, Levels(path))
  {
    hide Visit, Levels;
    var (root, levels) := (OneNode(m, d), Levels(path));
    assert root.children[1..] == [] && FirstOf([], m, levels) == NoMatch;
    assert FirstOf(root.children, m, levels) == Visit(root.children[0], m, levels);
  }

  /** The route "/l" of a plain level answers the one-level path exactly if the level is l. */
  lemma {:induction false} OneConstantRoute(m: Method, l: string, x: string)
    requires IsLevel(l) && IsLevel(x) && !(l[0] == '{' && l[|l| - 1] == '}') && l != "*"
    ensures IsPath("/" + x) && IsPattern("/" + l)
    ensures Lookup(Build([Route(m, Pattern("/" + l))]), m, "/" + x) == if x == l then Found(0, []) else NoMatch
  {
    OneLevel(x);
    ConstantLevel(l, x);
    OneRoute(m, l, m, "/" + x);
  }

  // ----- two routes -----------------------------------------------------------------------

  /** Of two one-level patterns the one registered first answers what both accept. */
  lemma {:induction false} FirstRegisteredAnswers(m: Method, d: NodeData, e: NodeData, path: string)
    requires IsPath(path) && d != e
    ensures var levels := Levels(path);
            Lookup(Build([Route(m, [d]), Route(m, [e])]), m, path) ==
              if levels == [] then NoMatch
              else if Accepts(d, levels[0]) then Found(0, Captured(d, levels[0]))
              else if Accepts(e, levels[0]) then Found(1, Captured(e, levels[0]))
              else NoMatch
  {
    hide Accepts, Captured, Build, Levels;
    var levels := Levels(path);
    TwoChildren(m, d, e);
    if levels != [] {
      LeafAnswers(m, d, 0, levels);
      LeafAnswers(m, e, 1, levels);
      hide Visit;
      FirstOfTwo(Leaf(m, d, 0), Leaf(m, e, 1), m, levels);
    }
  }

  function TwoNodes(m: Method, d: NodeData, e: NodeData): RouteNode {
    RouteNode(EMPTY_ROOT.data, false, {m}, map[], [Leaf(m, d, 0), Leaf(m, e, 1)])
  }

  lemma {:induction false} FirstOfTwo(a: RouteNode, b: RouteNode, m: Method, levels: seq<string>)
    requires levels != []
    ensures var r := Visit(a, m, levels);
            FirstOf([a, b], m, levels) == if r != NoMatch then r else Visit(b, m, levels)
  {
    hide Visit;
    OnlyChild(b, m, levels);
    assert [a, b][1..] == [b];
  }

  lemma TwoChildren(m: Method, d: NodeData, e: NodeData)
    requires d != e
    ensures Build([Route(m, [d]), Route(m, [e])]) == TwoNodes(m, d, e)
  {
    var table := [Route(m, [d]), Route(m, [e])];
    OneChild(m, d);
    assert table[..1] == [Route(m, [d])] && [e][1..] == [];
    var leaf := Inserted(NewNode(e), m, [], 1);
    assert leaf.methods == {m} && leaf.routeIndex == map[m := 1] && leaf == Leaf(m, e, 1);
    var one := OneNode(m, d);
    assert one.children[1..] == [] && FindChild(one.children, e) == 1;
    var root := Inserted(one, m, [e], 1);
    assert root.methods == {m} && root.children == [Leaf(m, d, 0), leaf];
  }

  /** A pattern and a longer one: the longer one answers what it matches, the shorter one the rest of what
      begins with it, deeper paths included. */
  lemma {:induction false} DeeperAnswers(m: Method, d: NodeData, e: NodeData, path: string)
    requires IsPath(path)
    ensures var levels := Levels(path);
            Lookup(Build([Route(m, [d]), Route(m, [d, e])]), m, path) ==
              if levels == [] || !Accepts(d, levels[0]) then NoMatch
              else if |levels| > 1 && Accepts(e, levels[1])
              then Found(1, Captured(d, levels[0]) + Captured(e, levels[1]))
              else Found(0, Captured(d, levels[0]))
  {
    hide Accepts, Captured, Build, Levels;
    var levels := Levels(path);
    Nested(m, d, e);
    if levels != [] {
      var (parent, rest) := (Parent(m, d, e), levels[1..]);
      if rest != [] {
        LeafAnswers(m, e, 1, rest);
        OnlyChild(Leaf(m, e, 1), m, rest);
      }
      OnlyChild(parent, m, levels);
      assert Captured(d, levels[0]) + [] == Captured(d, levels[0]);
    }
  }

  function Parent(m: Method, d: NodeData, e: NodeData): RouteNode {
    RouteNode(d, true, {m}, map[m := 0], [Leaf(m, e, 1)])
  }

  lemma {:induction false} OnlyChild(a: RouteNode, m: Method, levels: seq<string>)
    requires levels != []
    ensures FirstOf([a], m, levels) == Visit(a, m, levels)
  {
    hide Visit;
    assert [a][1..] == [];
  }

  lemma Nested(m: Method, d: NodeData, e: NodeData)
    ensures Build([Route(m, [d]), Route(m, [d, e])])
         == RouteNode(EMPTY_ROOT.data, false, {m}, map[], [Parent(m, d, e)])
  {
    var table := [Route(m, [d]), Route(m, [d, e])];
    OneChild(m, d);
    assert table[..1] == [Route(m, [d])] && [d, e][1..] == [e] && [e][1..] == [];
    var leaf := Inserted(NewNode(e), m, [], 1);
    assert leaf.methods == {m} && leaf.routeIndex == map[m := 1] && leaf == Leaf(m, e, 1);
    var child := Inserted(Leaf(m, d, 0), m, [e], 1);
    assert FindChild([], e) == 0;
    assert child.methods == {m} && child.children == [leaf];
    var root := Inserted(OneNode(m, d), m, [d, e], 1);
    assert FindChild(OneNode(m, d).children, d) == 0;
    assert root.methods == {m} && root.children == [child];
  }
}
