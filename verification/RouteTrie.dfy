/** The route trie (src/httprouter.cc): insertion with method masks, and the backtracking match with
    its capture stack. A `RouteNode` holds its children by value, so nodes are values here. */
module RouteTrie {
  import opened Numerals
  import opened RoutePaths

  datatype Method = GET | POST | PUT | HEAD | PATCH | DELETE | OPTIONS

  datatype Kind = ROOT | CONSTANT | PARAM_INT | PARAM_FLOAT | PARAM_STRING

  datatype NodeData = NodeData(kind: Kind, tag: string)

  /** `routeIndex` holds only the slots that were written; C++ reads an unwritten one as garbage. */
  datatype RouteNode = RouteNode(
    data: NodeData, terminal: bool, methods: set<Method>, routeIndex: map<Method, nat>, children: seq<RouteNode>)

  /** Handler indices are stored in 16 bits. */
  const INDEX_WIDTH: nat := 0x1_0000

  const EMPTY_ROOT := RouteNode(NodeData(ROOT, ""), false, {}, map[], [])

  function NewNode(data: NodeData): RouteNode {
    RouteNode(data, false, {}, map[], [])
  }

  /** The node data a pattern level stands for: `{label}`, `{label:int}`, `{label:float}`, any other
      type being a string, or a constant. */
  function ParseLevel(level: string): (d: NodeData)
    requires level != ""
    ensures d.kind != ROOT
  {
    if level[0] == '{' && level[|level| - 1] == '}' && |level| >= 2 then
      var (colon, typeEnd) := (Find(level, ':', 0), |level| - 1);
      if colon == |level| then NodeData(PARAM_STRING, level[1..typeEnd])
      else
        var kind := level[colon + 1..typeEnd];
        NodeData(if kind == "int" then PARAM_INT else if kind == "float" then PARAM_FLOAT else PARAM_STRING,
                 level[1..colon])
    else NodeData(CONSTANT, level)
  }

  /** The asserts of `insert_path`: a leading slash, and no empty level unless it is the first, which
      registers the root. */
  predicate IsPattern(path: string) {
    IsPath(path) && (LevelOf(path) == "" || "" !in Levels(path))
  }

  function Pattern(path: string): seq<NodeData>
    requires IsPattern(path)
  {
    if LevelOf(path) == "" then [] else ParseLevels(Levels(path))
  }

  function ParseLevels(levels: seq<string>): (p: seq<NodeData>)
    requires "" !in levels
    ensures |p| == |levels|
    ensures forall i :: 0 <= i < |p| ==> p[i] == ParseLevel(levels[i])
  {
    if levels == [] then [] else [ParseLevel(levels[0])] + ParseLevels(levels[1..])
  }

  // ----- insertion ------------------------------------------------------------------------

  /** `std::find` over the children; their number if there is none. */
  function FindChild(children: seq<RouteNode>, data: NodeData): (i: nat)
    ensures i <= |children|
    ensures forall k :: 0 <= k < i ==> children[k].data != data
    ensures i < |children| ==> children[i].data == data
  {
    if children == [] || children[0].data == data then 0 else 1 + FindChild(children[1..], data)
  }

  function Inserted(node: RouteNode, m: Method, p: seq<NodeData>, index: nat): RouteNode
    decreases |p|
  {
    var masked := node.(methods := node.methods + {m});
    if p == [] then masked.(terminal := true, routeIndex := node.routeIndex[m := index % INDEX_WIDTH])
    else
      var i := FindChild(node.children, p[0]);
      if i == |node.children| then
        masked.(children := node.children + [Inserted(NewNode(p[0]), m, p[1..], index)])
      else
        masked.(children := node.children[i := Inserted(node.children[i], m, p[1..], index)])
  }

  method ChildIndex(children: seq<RouteNode>, data: NodeData) returns (i: nat)
    ensures i == FindChild(children, data)
  {
    i := 0;
    while i < |children| && children[i].data != data
      invariant i <= |children|
      invariant forall k :: 0 <= k < i ==> children[k].data != data
    {
      i := i + 1;
    }
  }

  /** `insert_path`, on the text of the pattern. */
  method InsertPath(node: RouteNode, m: Method, path: string, index: nat) returns (r: RouteNode)
    requires IsPattern(path)
    requires node.data.kind != ROOT ==> LevelOf(path) != ""
    ensures r == Inserted(node, m, Pattern(path), index)
    decreases |path|
  {
    hide Levels, FindChild, ParseLevel, Pattern;
    PatternOfRoot(path);
    r := node.(methods := node.methods + {m});
    var level, next := LevelOf(path), NextOf(path);
    if level != "" {
      var data := ParseLevel(level);
      var isTerminal := next == "/";
      NextPattern(path);
      var i := ChildIndex(node.children, data);
      var child := if i == |node.children| then NewNode(data) else node.children[i];
      if !isTerminal {
        child := InsertPath(child, m, next, index);
      } else {
        child := child.(terminal := true, methods := child.methods + {m},
                        routeIndex := child.routeIndex[m := index % INDEX_WIDTH]);
      }
      r := r.(children := if i == |node.children| then node.children + [child] else node.children[i := child]);
    } else {
      r := r.(terminal := true, routeIndex := node.routeIndex[m := index % INDEX_WIDTH]);
    }
  }

  lemma PatternOfRoot(path: string)
    requires IsPattern(path)
    ensures LevelOf(path) == "" ==> Pattern(path) == []
    ensures LevelOf(path) != "" ==> Pattern(path) != []
  {
    if LevelOf(path) != "" {
      assert Levels(path) == [LevelOf(path)] + Levels(NextOf(path));
    }
  }

  lemma NextPattern(path: string)
    requires IsPattern(path) && LevelOf(path) != ""
    ensures var next := NextOf(path);
            && Pattern(path)[0] == ParseLevel(LevelOf(path))
            && (next == "/" ==> Pattern(path)[1..] == [])
            && (next != "/" ==> IsPattern(next) && LevelOf(next) != "" && Pattern(path)[1..] == Pattern(next))
  {
    var next := NextOf(path);
    assert Levels(path) == [LevelOf(path)] + Levels(next);
    assert Levels(path)[1..] == Levels(next);
    if next != "/" {
      assert Levels(next)[0] == LevelOf(next);
      assert LevelOf(next) in Levels(path);
      assert forall l :: l in Levels(next) ==> l in Levels(path);
    }
  }

  // ----- matching -------------------------------------------------------------------------

  function Dots(level: string): nat {
    if level == "" then 0 else (if level[0] == '.' then 1 else 0) + Dots(level[1..])
  }

  /** Whether a node takes a level of the path. */
  predicate Accepts(data: NodeData, level: string) {
    match data.kind
    case ROOT => true
    case CONSTANT => data.tag == "*" || data.tag == level
    case PARAM_INT => forall k :: 0 <= k < |level| ==> IsDigit(level[k])
    case PARAM_FLOAT => (forall k :: 0 <= k < |level| ==> IsDigit(level[k]) || level[k] == '.') && Dots(level) <= 1
    case PARAM_STRING => true
  }

  predicate IsParam(data: NodeData) {
    data.kind == PARAM_INT || data.kind == PARAM_FLOAT || data.kind == PARAM_STRING
  }

  /** What a node captures of its level. */
  function Captured(data: NodeData, level: string): seq<string> {
    if IsParam(data) then [level] else []
  }

  /** `Unset`: the slot of the method was never written at the node that answers. */
  datatype Answer = NoMatch | Found(index: nat, captures: seq<string>) | Unset(captures: seq<string>) {
    function After(before: seq<string>): Answer {
      match this
      case NoMatch => NoMatch
      case Found(index, captures) => Found(index, before + captures)
      case Unset(captures) => Unset(before + captures)
    }

    function Captures(): seq<string> {
      match this
      case NoMatch => []
      case Found(_, captures) => captures
      case Unset(captures) => captures
    }
  }

  /** A node below the root, given the levels from its own on. */
  function Visit(node: RouteNode, m: Method, levels: seq<string>): Answer
    requires levels != []
    decreases node, 1
  {
    if m !in node.methods || !Accepts(node.data, levels[0]) then NoMatch
    else Below(node, m, levels[1..]).After(Captured(node.data, levels[0]))
  }

  /** A node that has taken its level: children first, in order, then the node itself. */
  function Below(node: RouteNode, m: Method, rest: seq<string>): Answer
    decreases node, 0
  {
    var r := if rest == [] then NoMatch else FirstOf(node.children, m, rest);
    if r != NoMatch then r
    else if !node.terminal then NoMatch
    else if m in node.routeIndex then Found(node.routeIndex[m], []) else Unset([])
  }

  function FirstOf(children: seq<RouteNode>, m: Method, levels: seq<string>): Answer
    requires levels != []
    decreases children, 2
  {
    if children == [] then NoMatch
    else
      var r := Visit(children[0], m, levels);
      if r != NoMatch then r else FirstOf(children[1..], m, levels)
  }

  function Lookup(root: RouteNode, m: Method, path: string): Answer
    requires IsPath(path)
  {
    if m !in root.methods then NoMatch else Below(root, m, Levels(path))
  }

  ghost predicate RootOnlyOnTop(node: RouteNode) {
    forall i :: 0 <= i < |node.children| ==>
      node.children[i].data.kind != ROOT && RootOnlyOnTop(node.children[i])
  }

  /** `Npos` for no match; `Garbage` for the content of a slot that was never written. */
  datatype Hit = Npos | Index(index: nat) | Garbage

  function HitOf(a: Answer): Hit {
    match a
    case NoMatch => Npos
    case Found(index, _) => Index(index)
    case Unset(_) => Garbage
  }

  /** The vector that `match` pushes captures to and pops them from. */
  class Captures {
    var items: seq<string>

    constructor ()
      ensures items == []
    {
      items := [];
    }
  }

  /** `match`, on the text of the path. A failed match leaves the captures as they were, a successful
      one adds those of the nodes it went through. */
  method Match(node: RouteNode, m: Method, path: string, vars: Captures) returns (r: Hit)
    requires IsPath(path) && (node.data.kind != ROOT ==> path != "/")
    requires RootOnlyOnTop(node)
    modifies vars
    ensures var a := if node.data.kind == ROOT then Lookup(node, m, path) else Visit(node, m, Levels(path));
            r == HitOf(a) && vars.items == old(vars.items) + a.Captures()
    decreases node, 1
  {
    hide Below, Levels;
    if m !in node.methods {
      return Npos;
    }
    FirstLevel(path);
    ghost var before := vars.items;
    var next := NextOf(path);
    var taken := TakeLevel(node.data, LevelOf(path), vars);
    if !taken {
      return Npos;
    }
    if node.data.kind == ROOT {
      next := path;
    }
    r := MatchBelow(node, m, next, vars);
    ghost var b := Below(node, m, Levels(next));
    assert before + Captured(node.data, LevelOf(path)) + b.Captures()
        == before + (Captured(node.data, LevelOf(path)) + b.Captures());
    if r == Npos && IsParam(node.data) {
      vars.items := vars.items[..|vars.items| - 1];
    }
  }

  lemma FirstLevel(path: string)
    requires IsPath(path)
    ensures path != "/" ==>
              Levels(path) != [] && Levels(path)[0] == LevelOf(path) && Levels(path)[1..] == Levels(NextOf(path))
    ensures Levels(path) == [] <==> path == "/"
  {
  }

  /** The type switch: checks the level and captures it for a parameter. */
  method TakeLevel(data: NodeData, level: string, vars: Captures) returns (taken: bool)
    modifies vars
    ensures taken <==> Accepts(data, level)
    ensures vars.items == old(vars.items) + if taken then Captured(data, level) else []
  {
    taken := true;
    match data.kind {
      case ROOT =>
      case CONSTANT =>
        taken := data.tag == "*" || data.tag == level;
      case PARAM_INT =>
        taken := AllDigits(level);
      case PARAM_FLOAT =>
        taken := IsFloat(level);
      case PARAM_STRING =>
    }
    if taken && IsParam(data) {
      vars.items := vars.items + [level];
    }
  }

  /** The children in order, then the node itself. */
  method MatchBelow(node: RouteNode, m: Method, next: string, vars: Captures) returns (r: Hit)
    requires IsPath(next) && RootOnlyOnTop(node)
    modifies vars
    ensures var a := Below(node, m, Levels(next));
            r == HitOf(a) && vars.items == old(vars.items) + a.Captures()
    decreases node, 0
  {
    hide Levels, Visit;
    ghost var (before, rest) := (vars.items, Levels(next));
    FirstLevel(next);
    if next != "/" {
      var i := 0;
      while i < |node.children|
        invariant i <= |node.children|
        invariant vars.items == before
        invariant FirstOf(node.children, m, rest) == FirstOf(node.children[i..], m, rest)
      {
        r := Match(node.children[i], m, next, vars);
        assert node.children[i..][1..] == node.children[i + 1..];
        if r != Npos {
          return r;
        }
        i := i + 1;
      }
    }
    if node.terminal {
      return if m in node.routeIndex then Index(node.routeIndex[m]) else Garbage;
    }
    r := Npos;
  }

  method AllDigits(level: string) returns (b: bool)
    ensures b <==> Accepts(NodeData(PARAM_INT, ""), level)
  {
    for i := 0 to |level|
      invariant forall k :: 0 <= k < i ==> IsDigit(level[k])
    {
      if !IsDigit(level[i]) {
        return false;
      }
    }
    b := true;
  }

  /** Digits and at most one dot. */
  method IsFloat(level: string) returns (b: bool)
    ensures b <==> Accepts(NodeData(PARAM_FLOAT, ""), level)
  {
    var dots := 0;
    for i := 0 to |level|
      invariant forall k :: 0 <= k < i ==> IsDigit(level[k]) || level[k] == '.'
      invariant 0 <= dots <= 1 && Dots(level) == dots + Dots(level[i..])
    {
      assert level[i..][1..] == level[i + 1..];
      if !IsDigit(level[i]) && level[i] != '.' {
        return false;
      } else if level[i] == '.' {
        if dots != 0 {
          return false;
        }
        dots := dots + 1;
      }
    }
    b := true;
  }
}
