/** What the route trie means in terms of the table of registered routes: which route answers a
    request, and with which captures, for every table and every path. */
module RouteTable {
  import opened RoutePaths
  import opened RouteTrie

  datatype Route = Route(verb: Method, pattern: seq<NodeData>)

  /** Routes in registration order; the handler index of a route is its position. */
  ghost function Build(table: seq<Route>): RouteNode {
    if table == [] then EMPTY_ROOT
    else
      var n := |table| - 1;
      Inserted(Build(table[..n]), table[n].verb, table[n].pattern, n)
  }

  // ----- which route should answer --------------------------------------------------------

  /** A pattern matches a prefix of the levels. */
  ghost predicate Matches(p: seq<NodeData>, levels: seq<string>) {
    p == [] || (levels != [] && Accepts(p[0], levels[0]) && Matches(p[1..], levels[1..]))
  }

  /** The levels its parameters take, in order. */
  ghost function ParamLevels(p: seq<NodeData>, levels: seq<string>): seq<string>
    requires |p| <= |levels|
  {
    if p == [] then [] else Captured(p[0], levels[0]) + ParamLevels(p[1..], levels[1..])
  }

  ghost predicate IsPatternOf(table: seq<Route>, q: seq<NodeData>) {
    exists k :: 0 <= k < |table| && table[k].pattern == q
  }

  ghost predicate Extends(table: seq<Route>, q: seq<NodeData>) {
    exists k :: 0 <= k < |table| && q <= table[k].pattern
  }

  ghost predicate VerbExtends(table: seq<Route>, m: Method, q: seq<NodeData>) {
    exists k :: 0 <= k < |table| && table[k].verb == m && q <= table[k].pattern
  }

  /** The first route under `p` was registered before any under `q`. */
  ghost predicate Earlier(table: seq<Route>, p: seq<NodeData>, q: seq<NodeData>) {
    exists k :: 0 <= k < |table| && p <= table[k].pattern && forall j :: 0 <= j <= k ==> !(q <= table[j].pattern)
  }

  /** Position k is the latest registration of a method and pattern. */
  ghost predicate IsLast(table: seq<Route>, m: Method, q: seq<NodeData>, k: int) {
    0 <= k < |table| && table[k] == Route(m, q) && forall j :: k < j < |table| ==> table[j] != Route(m, q)
  }

  /** Patterns below `pre` where the search may end: some route has the pattern, some route of the
      method goes through or ends there, and it matches. */
  ghost predicate Candidate(table: seq<Route>, m: Method, pre: seq<NodeData>, rest: seq<string>, q: seq<NodeData>) {
    pre <= q && IsPatternOf(table, q) && VerbExtends(table, m, q) && Matches(q[|pre|..], rest)
  }

  /** Deeper beats shallower; at a fork the branch registered first wins. */
  ghost predicate Wins(table: seq<Route>, p: seq<NodeData>, q: seq<NodeData>) {
    q <= p || exists n :: Forks(table, p, q, n)
  }

  ghost predicate Forks(table: seq<Route>, p: seq<NodeData>, q: seq<NodeData>, n: int) {
    0 <= n < |p| && n < |q| && p[..n] == q[..n] && p[n] != q[n] && Earlier(table, p[..n + 1], q[..n + 1])
  }

  ghost predicate Best(table: seq<Route>, m: Method, pre: seq<NodeData>, rest: seq<string>, q: seq<NodeData>) {
    Candidate(table, m, pre, rest, q) && forall q' :: Candidate(table, m, pre, rest, q') ==> Wins(table, q, q')
  }

  /** The answer of a node whose pattern is q. */
  ghost predicate Reports(table: seq<Route>, m: Method, q: seq<NodeData>, a: Answer) {
    match a
    case NoMatch => false
    case Found(index, _) => exists k :: IsLast(table, m, q, k) && index == k % INDEX_WIDTH
    case Unset(_) => Route(m, q) !in table
  }

  // ----- the trie represents the table ----------------------------------------------------

  /** The fields of a node say what the routes at and below its pattern are. */
  ghost predicate SelfRepresents(node: RouteNode, table: seq<Route>, pre: seq<NodeData>) {
    && (forall m :: m in node.methods <==> VerbExtends(table, m, pre))
    && (node.terminal <==> IsPatternOf(table, pre))
    && (forall m :: m in node.routeIndex <==> Route(m, pre) in table)
    && (forall m, k :: IsLast(table, m, pre, k) ==> m in node.routeIndex && node.routeIndex[m] == k % INDEX_WIDTH)
  }

  /** Children stand in order of first registration. */
  ghost predicate Ordered(children: seq<RouteNode>, table: seq<Route>, pre: seq<NodeData>) {
    && (forall i, j :: 0 <= i < j < |children| ==>
          Earlier(table, pre + [children[i].data], pre + [children[j].data]))
    && (forall i :: 0 <= i < |children| ==> Extends(table, pre + [children[i].data]))
  }

  ghost predicate Represents(node: RouteNode, table: seq<Route>, pre: seq<NodeData>)
    decreases node
  {
    && SelfRepresents(node, table, pre)
    && Ordered(node.children, table, pre)
    && Covered(node.children, table, pre)
    && (forall i :: 0 <= i < |node.children| ==>
          Represents(node.children[i], table, pre + [node.children[i].data]))
  }

  /** Every longer route goes through a child. */
  ghost predicate Covered(children: seq<RouteNode>, table: seq<Route>, pre: seq<NodeData>) {
    forall q :: Extends(table, q) && pre < q ==> HasChild(children, q[|pre|])
  }

  ghost predicate HasChild(children: seq<RouteNode>, d: NodeData) {
    exists i :: 0 <= i < |children| && children[i].data == d
  }

  lemma AppendFacts(table: seq<Route>, r: Route)
    ensures var t := table + [r];
      && (forall q :: IsPatternOf(t, q) <==> IsPatternOf(table, q) || q == r.pattern)
      && (forall q :: Extends(t, q) <==> Extends(table, q) || q <= r.pattern)
      && (forall m, q :: VerbExtends(t, m, q) <==> VerbExtends(table, m, q) || (m == r.verb && q <= r.pattern))
      && (forall p, q :: Earlier(table, p, q) ==> Earlier(t, p, q))
      && (forall p, q :: Extends(table, p) && !Extends(table, q) ==> Earlier(t, p, q))
      && (forall m, q, k :: IsLast(t, m, q, k) <==> if r == Route(m, q) then k == |table| else IsLast(table, m, q, k))
  {
    var t := table + [r];
    assert forall k :: 0 <= k < |table| ==> t[k] == table[k];
    assert t[|table|] == r;
    forall q ensures IsPatternOf(t, q) <==> IsPatternOf(table, q) || q == r.pattern {
      if IsPatternOf(table, q) {
        var k :| 0 <= k < |table| && table[k].pattern == q;
        assert t[k].pattern == q;
      }
    }
    forall q ensures Extends(t, q) <==> Extends(table, q) || q <= r.pattern {
      if Extends(table, q) {
        var k :| 0 <= k < |table| && q <= table[k].pattern;
        assert q <= t[k].pattern;
      }
    }
    forall m, q ensures VerbExtends(t, m, q) <==> VerbExtends(table, m, q) || (m == r.verb && q <= r.pattern) {
      if VerbExtends(table, m, q) {
        var k :| 0 <= k < |table| && table[k].verb == m && q <= table[k].pattern;
        assert t[k].verb == m && q <= t[k].pattern;
      }
    }
    forall p, q | Earlier(table, p, q) ensures Earlier(t, p, q) {
      var k :| 0 <= k < |table| && p <= table[k].pattern && forall j :: 0 <= j <= k ==> !(q <= table[j].pattern);
      assert p <= t[k].pattern && forall j :: 0 <= j <= k ==> !(q <= t[j].pattern);
    }
    forall p, q | Extends(table, p) && !Extends(table, q) ensures Earlier(t, p, q) {
      var k :| 0 <= k < |table| && p <= table[k].pattern;
      assert p <= t[k].pattern && forall j :: 0 <= j <= k ==> !(q <= t[j].pattern);
    }
  }

  lemma {:induction false} SelfKept(node: RouteNode, table: seq<Route>, pre: seq<NodeData>, r: Route)
    requires SelfRepresents(node, table, pre) && !(pre <= r.pattern)
    ensures SelfRepresents(node, table + [r], pre)
  {
    AppendFacts(table, r);
  }

  lemma {:induction false} OrderKept(children: seq<RouteNode>, table: seq<Route>, pre: seq<NodeData>, r: Route)
    requires Ordered(children, table, pre)
    ensures Ordered(children, table + [r], pre)
  {
    AppendFacts(table, r);
  }

  lemma {:induction false} CoverKept(children: seq<RouteNode>, table: seq<Route>, pre: seq<NodeData>, r: Route)
    requires Covered(children, table, pre)
    requires pre < r.pattern ==> HasChild(children, r.pattern[|pre|])
    ensures Covered(children, table + [r], pre)
  {
    AppendFacts(table, r);
    forall q | Extends(table + [r], q) && pre < q
      ensures HasChild(children, q[|pre|])
    {
      if !Extends(table, q) {
        assert q[|pre|] == r.pattern[|pre|];
      }
    }
  }

  /** A node off the path of a new route is not affected by it. */
  lemma {:induction false} OtherKeeps(node: RouteNode, table: seq<Route>, pre: seq<NodeData>, r: Route)
    requires Represents(node, table, pre) && !(pre <= r.pattern)
    ensures Represents(node, table + [r], pre)
    decreases node
  {
    hide SelfRepresents, Ordered, Covered;
    SelfKept(node, table, pre, r);
    OrderKept(node.children, table, pre, r);
    CoverKept(node.children, table, pre, r);
    forall i | 0 <= i < |node.children|
      ensures Represents(node.children[i], table + [r], pre + [node.children[i].data])
    {
      OtherKeeps(node.children[i], table, pre + [node.children[i].data], r);
    }
  }

  lemma FreshNode(d: NodeData, table: seq<Route>, pre: seq<NodeData>)
    requires !Extends(table, pre)
    ensures Represents(NewNode(d), table, pre)
  {
  }

  lemma {:induction false} ChildrenDiffer(
    children: seq<RouteNode>, table: seq<Route>, pre: seq<NodeData>, i: nat, j: nat)
    requires Ordered(children, table, pre) && i < |children| && j < |children| && i != j
    ensures children[i].data != children[j].data
  {
    var (a, b) := if i < j then (i, j) else (j, i);
    assert Earlier(table, pre + [children[a].data], pre + [children[b].data]);
  }

  lemma OffPath(pre: seq<NodeData>, d: NodeData, p: seq<NodeData>)
    ensures pre + [d] <= pre + p <==> p != [] && p[0] == d
  {
    if p != [] {
      assert (pre + p)[|pre|] == p[0] && (pre + [d])[|pre|] == d;
      assert p[0] == d ==> pre + p == pre + [d] + p[1..];
    }
  }

  lemma {:induction false} SelfInserted(
    node: RouteNode, table: seq<Route>, pre: seq<NodeData>, m: Method, p: seq<NodeData>)
    requires SelfRepresents(node, table, pre)
    ensures SelfRepresents(Inserted(node, m, p, |table|), table + [Route(m, pre + p)], pre)
  {
    AppendFacts(table, Route(m, pre + p));
    assert pre + p == pre <==> p == [];
  }

  /** The new child list: one child rebuilt, or one added at the end for a branch not seen before. */
  ghost predicate Grown(children: seq<RouteNode>, children': seq<RouteNode>, d: NodeData) {
    var i := FindChild(children, d);
    && |children'| == (if i == |children| then i + 1 else |children|)
    && (forall j :: 0 <= j < |children| ==> children'[j].data == children[j].data)
    && children'[i].data == d
  }

  lemma {:induction false} ChildrenKept(
    children: seq<RouteNode>, children': seq<RouteNode>, table: seq<Route>, pre: seq<NodeData>, r: Route)
    requires Ordered(children, table, pre) && Covered(children, table, pre)
    requires pre < r.pattern && Grown(children, children', r.pattern[|pre|])
    ensures Ordered(children', table + [r], pre) && Covered(children', table + [r], pre)
  {
    hide Ordered, Covered, Grown;
    StayCovered(children, children', table, pre, r);
    StayOrdered(children, children', table, pre, r);
  }

  lemma {:induction false} StayCovered(
    children: seq<RouteNode>, children': seq<RouteNode>, table: seq<Route>, pre: seq<NodeData>, r: Route)
    requires Covered(children, table, pre) && pre < r.pattern && Grown(children, children', r.pattern[|pre|])
    ensures Covered(children', table + [r], pre)
  {
    hide Covered;
    forall e | HasChild(children, e)
      ensures HasChild(children', e)
    {
      var j :| 0 <= j < |children| && children[j].data == e;
      assert children'[j].data == e;
    }
    CoveredBy(children, children', table, pre, r);
  }

  lemma {:induction false} StayOrdered(
    children: seq<RouteNode>, children': seq<RouteNode>, table: seq<Route>, pre: seq<NodeData>, r: Route)
    requires Ordered(children, table, pre) && Covered(children, table, pre)
    requires pre < r.pattern && Grown(children, children', r.pattern[|pre|])
    ensures Ordered(children', table + [r], pre)
  {
    hide Extends, Earlier, Covered;
    var (d, i) := (r.pattern[|pre|], FindChild(children, r.pattern[|pre|]));
    OrderKept(children, table, pre, r);
    if i == |children| {
      NotYetExtended(children, table, pre, d);
      assert pre + [d] <= r.pattern;
      forall j | 0 <= j < i
        ensures Earlier(table + [r], pre + [children[j].data], pre + [d])
      {
        EarlierThanNew(table, r, pre + [children[j].data], pre + [d]);
      }
      NowExtended(table, r, pre + [d]);
    }
  }

  lemma NowExtended(table: seq<Route>, r: Route, q: seq<NodeData>)
    requires q <= r.pattern
    ensures Extends(table + [r], q)
  {
    AppendFacts(table, r);
  }

  lemma EarlierThanNew(table: seq<Route>, r: Route, p: seq<NodeData>, q: seq<NodeData>)
    requires Extends(table, p) && !Extends(table, q)
    ensures Earlier(table + [r], p, q)
  {
    AppendFacts(table, r);
  }

  lemma {:induction false} CoveredBy(
    children: seq<RouteNode>, children': seq<RouteNode>, table: seq<Route>, pre: seq<NodeData>, r: Route)
    requires Covered(children, table, pre)
    requires forall e :: HasChild(children, e) ==> HasChild(children', e)
    requires pre < r.pattern ==> HasChild(children', r.pattern[|pre|])
    ensures Covered(children', table + [r], pre)
  {
    CoverKept(children', table, pre, r);
  }

  lemma {:induction false} InsertKeeps(
    node: RouteNode, table: seq<Route>, pre: seq<NodeData>, m: Method, p: seq<NodeData>)
    requires Represents(node, table, pre)
    ensures Represents(Inserted(node, m, p, |table|), table + [Route(m, pre + p)], pre)
    decreases |p|
  {
    hide SelfRepresents, Ordered, Covered, Extends;
    var r, children := Route(m, pre + p), node.children;
    var t := table + [r];
    SelfInserted(node, table, pre, m, p);
    forall i | 0 <= i < |children| && (p == [] || children[i].data != p[0])
      ensures Represents(children[i], t, pre + [children[i].data])
    {
      OffPath(pre, children[i].data, p);
      OtherKeeps(children[i], table, pre + [children[i].data], r);
    }
    if p == [] {
      OrderKept(children, table, pre, r);
      CoverKept(children, table, pre, r);
    } else {
      var i, here := FindChild(children, p[0]), pre + [p[0]];
      assert here + p[1..] == pre + p && (pre + p)[|pre|] == p[0];
      if i == |children| {
        NotYetExtended(children, table, pre, p[0]);
        FreshNode(p[0], table, here);
        InsertKeeps(NewNode(p[0]), table, here, m, p[1..]);
      } else {
        InsertKeeps(children[i], table, here, m, p[1..]);
        forall j | 0 <= j < |children| && j != i
          ensures children[j].data != p[0]
        {
          ChildrenDiffer(children, table, pre, i, j);
        }
      }
      ChildrenKept(children, Inserted(node, m, p, |table|).children, table, pre, r);
    }
  }

  lemma {:induction false} NotYetExtended(children: seq<RouteNode>, table: seq<Route>, pre: seq<NodeData>, d: NodeData)
    requires Covered(children, table, pre) && FindChild(children, d) == |children|
    ensures !Extends(table, pre + [d])
  {
    assert (pre + [d])[|pre|] == d && pre < pre + [d];
  }

  lemma EmptyRepresents()
    ensures Represents(EMPTY_ROOT, [], [])
  {
  }

  lemma {:induction false} BuildRepresents(table: seq<Route>)
    ensures Represents(Build(table), table, [])
  {
    hide Represents, Inserted;
    if table == [] {
      EmptyRepresents();
    } else {
      BuildRepresents(table[..|table| - 1]);
      AppendRepresents(table[..|table| - 1], table[|table| - 1]);
      assert table[..|table| - 1] + [table[|table| - 1]] == table;
    }
  }

  lemma AppendRepresents(table: seq<Route>, r: Route)
    requires Represents(Build(table), table, [])
    ensures Represents(Build(table + [r]), table + [r], [])
  {
    hide Represents, Inserted;
    assert (table + [r])[..|table|] == table;
    InsertKeeps(Build(table), table, [], r.verb, r.pattern);
    assert Route(r.verb, [] + r.pattern) == r;
  }

  // ----- the match finds the best candidate -----------------------------------------------

  /** What an answer says about the routes below `pre`. */
  ghost predicate Correct(
    table: seq<Route>, m: Method, pre: seq<NodeData>, rest: seq<string>, a: Answer, q: seq<NodeData>) {
    && (a == NoMatch ==> forall q' :: !Candidate(table, m, pre, rest, q'))
    && (a != NoMatch ==>
          && Best(table, m, pre, rest, q) && Reports(table, m, q, a)
          && |q| - |pre| <= |rest| && a.Captures() == ParamLevels(q[|pre|..], rest))
  }

  lemma {:induction false} MatchesLength(p: seq<NodeData>, levels: seq<string>)
    requires Matches(p, levels)
    ensures |p| <= |levels|
    decreases |p|
  {
    if p != [] {
      MatchesLength(p[1..], levels[1..]);
    }
  }

  /** Candidates below a child are those below its parent that go through it. */
  lemma CandidateSteps(
    table: seq<Route>, m: Method, pre: seq<NodeData>, d: NodeData, levels: seq<string>, q: seq<NodeData>)
    requires levels != []
    ensures Candidate(table, m, pre, levels, q) && pre + [d] <= q <==>
            Accepts(d, levels[0]) && Candidate(table, m, pre + [d], levels[1..], q)
  {
    if pre + [d] <= q {
      assert q[|pre|..][0] == d && q[|pre|..][1..] == q[|pre| + 1..];
      assert pre <= q;
    }
  }

  lemma VerbExtendsDown(table: seq<Route>, m: Method, p: seq<NodeData>, q: seq<NodeData>)
    requires p <= q && VerbExtends(table, m, q)
    ensures VerbExtends(table, m, p)
  {
    var k :| 0 <= k < |table| && table[k].verb == m && q <= table[k].pattern;
    assert p <= table[k].pattern;
  }

  /** The best candidate through child d, seen from its parent. */
  ghost predicate BestThrough(
    table: seq<Route>, m: Method, pre: seq<NodeData>, d: NodeData, levels: seq<string>, a: Answer, q: seq<NodeData>) {
    && (a == NoMatch ==> forall q' :: Candidate(table, m, pre, levels, q') ==> !(pre + [d] <= q'))
    && (a != NoMatch ==>
          && Candidate(table, m, pre, levels, q) && pre + [d] <= q && Reports(table, m, q, a)
          && (forall q' :: Candidate(table, m, pre, levels, q') && pre + [d] <= q' ==> Wins(table, q, q'))
          && |q| - |pre| <= |levels| && a.Captures() == ParamLevels(q[|pre|..], levels))
  }

  lemma {:induction false} VisitCorrect(
    node: RouteNode, table: seq<Route>, m: Method, pre: seq<NodeData>, levels: seq<string>)
    returns (q: seq<NodeData>)
    requires Represents(node, table, pre + [node.data]) && levels != []
    ensures BestThrough(table, m, pre, node.data, levels, Visit(node, m, levels), q)
    decreases node, 1
  {
    hide Candidate, Wins, Ordered, Covered, Below, Accepts, Captured;
    var (d, here) := (node.data, pre + [node.data]);
    q := [];
    forall q' ensures Candidate(table, m, pre, levels, q') && here <= q' <==>
                      Accepts(d, levels[0]) && Candidate(table, m, here, levels[1..], q')
    {
      CandidateSteps(table, m, pre, d, levels, q');
    }
    if m !in node.methods {
      forall q' | Candidate(table, m, pre, levels, q')
        ensures !(here <= q')
      {
        if here <= q' {
          assert VerbExtends(table, m, q') by {
            CandidateParts(table, m, pre, levels, q');
          }
          VerbExtendsDown(table, m, here, q');
          assert false;
        }
      }
    } else if Accepts(d, levels[0]) {
      q := BelowCorrect(node, table, m, here, levels[1..]);
      var b := Below(node, m, levels[1..]);
      if b != NoMatch {
        assert q[|pre|..][0] == d && q[|pre|..][1..] == q[|here|..] by {
          BestExtends(table, m, here, levels[1..], q);
        }
        AfterCaptures(table, m, q, b, Captured(d, levels[0]));
      }
    }
  }

  lemma CandidateParts(table: seq<Route>, m: Method, pre: seq<NodeData>, levels: seq<string>, q: seq<NodeData>)
    requires Candidate(table, m, pre, levels, q)
    ensures pre <= q && IsPatternOf(table, q) && VerbExtends(table, m, q) && Matches(q[|pre|..], levels)
  {
  }

  lemma BestExtends(table: seq<Route>, m: Method, pre: seq<NodeData>, levels: seq<string>, q: seq<NodeData>)
    requires Best(table, m, pre, levels, q)
    ensures pre <= q
  {
  }

  lemma AfterCaptures(table: seq<Route>, m: Method, q: seq<NodeData>, b: Answer, before: seq<string>)
    requires Reports(table, m, q, b)
    ensures Reports(table, m, q, b.After(before)) && b.After(before).Captures() == before + b.Captures()
    ensures b.After(before) != NoMatch
  {
  }

  /** Among the children from the i-th on. */
  ghost predicate BestFrom(
    children: seq<RouteNode>, i: nat, table: seq<Route>, m: Method, pre: seq<NodeData>, levels: seq<string>,
    a: Answer, q: seq<NodeData>) {
    && (a == NoMatch ==>
          forall j, q' :: i <= j < |children| && Candidate(table, m, pre, levels, q') ==>
            !(pre + [children[j].data] <= q'))
    && (a != NoMatch ==>
          && Candidate(table, m, pre, levels, q) && Reports(table, m, q, a)
          && (forall j, q' ::
                (i <= j < |children| && Candidate(table, m, pre, levels, q') && pre + [children[j].data] <= q') ==>
                  Wins(table, q, q'))
          && |q| - |pre| <= |levels| && a.Captures() == ParamLevels(q[|pre|..], levels))
  }

  lemma ForkWins(table: seq<Route>, pre: seq<NodeData>, d: NodeData, e: NodeData, q: seq<NodeData>, q': seq<NodeData>)
    requires pre + [d] <= q && pre + [e] <= q' && Earlier(table, pre + [d], pre + [e])
    ensures Wins(table, q, q')
  {
    var n := |pre|;
    assert q[..n] == pre == q'[..n] && q[..n + 1] == pre + [d] && q'[..n + 1] == pre + [e];
    assert q[n] == d && q'[n] == e;
    assert d != e;
    assert Forks(table, q, q', n);
  }

  lemma {:induction false} FirstOfCorrect(
    children: seq<RouteNode>, i: nat, table: seq<Route>, m: Method, pre: seq<NodeData>, levels: seq<string>)
    returns (q: seq<NodeData>)
    requires i <= |children| && levels != []
    requires Ordered(children, table, pre)
    requires forall j :: 0 <= j < |children| ==> Represents(children[j], table, pre + [children[j].data])
    ensures BestFrom(children, i, table, m, pre, levels, FirstOf(children[i..], m, levels), q)
    decreases children, 2, |children| - i
  {
    hide Candidate, Wins, Visit, Represents;
    if i == |children| {
      assert children[i..] == [];
      q := [];
    } else {
      assert children[i..][0] == children[i] && children[i..][1..] == children[i + 1..];
      var a := Visit(children[i], m, levels);
      q := VisitCorrect(children[i], table, m, pre, levels);
      if a == NoMatch {
        q := FirstOfCorrect(children, i + 1, table, m, pre, levels);
      } else {
        forall j, q' | i < j < |children| && Candidate(table, m, pre, levels, q') && pre + [children[j].data] <= q'
          ensures Wins(table, q, q')
        {
          ForkWins(table, pre, children[i].data, children[j].data, q, q');
        }
      }
    }
  }

  lemma {:induction false} LastExists(table: seq<Route>, m: Method, q: seq<NodeData>) returns (k: nat)
    requires Route(m, q) in table
    ensures IsLast(table, m, q, k)
    decreases |table|
  {
    var n := |table| - 1;
    if table[n] == Route(m, q) {
      k := n;
    } else {
      k := LastExists(table[..n], m, q);
    }
  }

  lemma {:induction false} BelowCorrect(
    node: RouteNode, table: seq<Route>, m: Method, pre: seq<NodeData>, rest: seq<string>)
    returns (q: seq<NodeData>)
    requires Represents(node, table, pre) && VerbExtends(table, m, pre)
    ensures Correct(table, m, pre, rest, Below(node, m, rest), q)
    decreases node, 0
  {
    hide Wins, FirstOf;
    var r := if rest == [] then NoMatch else FirstOf(node.children, m, rest);
    q := pre;
    if rest != [] {
      q := FirstOfCorrect(node.children, 0, table, m, pre, rest);
      assert node.children[0..] == node.children;
    }
    forall q' | Candidate(table, m, pre, rest, q') && q' != pre
      ensures rest != [] && exists j :: 0 <= j < |node.children| && pre + [node.children[j].data] <= q'
    {
      ThroughAChild(node.children, table, m, pre, rest, q');
    }
    if r != NoMatch {
      forall q' | Candidate(table, m, pre, rest, q')
        ensures Wins(table, q, q')
      {
        if q' == pre {
          PrefixLoses(table, q, pre);
        }
      }
    } else {
      q := pre;
      PrefixLoses(table, pre, pre);
      assert pre[|pre|..] == [];
      if node.terminal && m in node.routeIndex {
        var k := LastExists(table, m, pre);
      }
    }
  }

  lemma PrefixLoses(table: seq<Route>, q: seq<NodeData>, q': seq<NodeData>)
    requires q' <= q
    ensures Wins(table, q, q')
  {
  }

  lemma {:induction false} ThroughAChild(
    children: seq<RouteNode>, table: seq<Route>, m: Method, pre: seq<NodeData>, rest: seq<string>, q: seq<NodeData>)
    requires Covered(children, table, pre) && Candidate(table, m, pre, rest, q) && q != pre
    ensures rest != [] && exists j :: 0 <= j < |children| && pre + [children[j].data] <= q
  {
    var k :| 0 <= k < |table| && table[k].pattern == q;
    assert Extends(table, q) && pre < q;
    var j :| 0 <= j < |children| && children[j].data == q[|pre|];
    assert pre + [children[j].data] <= q;
  }

  // ----- the router -----------------------------------------------------------------------

  /** For every table, method and path: no match exactly when there is no candidate, else the answer of
      the best candidate with the levels its parameters took. */
  lemma {:induction false} LookupCorrect(table: seq<Route>, m: Method, path: string) returns (q: seq<NodeData>)
    requires IsPath(path)
    ensures Correct(table, m, [], Levels(path), Lookup(Build(table), m, path), q)
  {
    BuildRepresents(table);
    if m in Build(table).methods {
      q := BelowCorrect(Build(table), table, m, [], Levels(path));
    } else {
      q := [];
      forall q' ensures !Candidate(table, m, [], Levels(path), q') {
        if VerbExtends(table, m, q') {
          VerbExtendsDown(table, m, [], q');
          assert false;
        }
      }
    }
  }

  /** No two candidates beat each other, so there is one best candidate. */
  lemma WinsOneWay(table: seq<Route>, p: seq<NodeData>, q: seq<NodeData>)
    requires Wins(table, p, q) && Wins(table, q, p)
    ensures p == q
  {
    hide Earlier;
    if n :| Forks(table, p, q, n) {
      EarlierOneWay(table, p[..n + 1], q[..n + 1]);
      forall n' ensures !Forks(table, q, p, n') {
        OneFork(table, p, q, n, n');
      }
    }
  }

  /** Sequences part at one place only. */
  lemma OneFork(table: seq<Route>, p: seq<NodeData>, q: seq<NodeData>, n: int, n': int)
    requires Forks(table, p, q, n)
    ensures !(p <= q) && !(q <= p)
    ensures Forks(table, q, p, n') ==> n' == n
  {
  }

  lemma EarlierOneWay(table: seq<Route>, p: seq<NodeData>, q: seq<NodeData>)
    requires Earlier(table, p, q)
    ensures !Earlier(table, q, p)
  {
  }

  /** An unwritten slot is read exactly when the best candidate lacks a route of the method. */
  lemma AnswerOfBest(table: seq<Route>, m: Method, path: string, q: seq<NodeData>)
    requires IsPath(path) && Best(table, m, [], Levels(path), q)
    ensures var a := Lookup(Build(table), m, path);
            && a != NoMatch
            && (a.Unset? <==> Route(m, q) !in table)
            && (a.Found? ==> exists k :: IsLast(table, m, q, k) && a.index == k % INDEX_WIDTH)
            && |q| <= |Levels(path)| && a.Captures() == ParamLevels(q, Levels(path))
  {
    var q' := LookupCorrect(table, m, path);
    assert Candidate(table, m, [], Levels(path), q) && Candidate(table, m, [], Levels(path), q');
    WinsOneWay(table, q, q');
    assert q[0..] == q;
  }

  /** A pattern that is a proper prefix of another is also registered for the other's method. */
  ghost predicate Nested(table: seq<Route>) {
    forall j, k :: 0 <= j < |table| && 0 <= k < |table| && table[k].pattern < table[j].pattern ==>
      Route(table[j].verb, table[k].pattern) in table
  }

  /** A route that matches a prefix of the levels. */
  ghost predicate Eligible(table: seq<Route>, m: Method, levels: seq<string>, q: seq<NodeData>) {
    Route(m, q) in table && Matches(q, levels)
  }

  lemma CandidatesAreEligible(table: seq<Route>, m: Method, levels: seq<string>, q: seq<NodeData>)
    ensures Eligible(table, m, levels, q) ==> Candidate(table, m, [], levels, q)
    ensures Nested(table) && Candidate(table, m, [], levels, q) ==> Eligible(table, m, levels, q)
  {
    assert q[0..] == q;
    if Eligible(table, m, levels, q) {
      var k :| 0 <= k < |table| && table[k] == Route(m, q);
      assert table[k].pattern == q && q <= table[k].pattern;
    }
    if Candidate(table, m, [], levels, q) {
      var k :| 0 <= k < |table| && table[k].pattern == q;
      var j :| 0 <= j < |table| && table[j].verb == m && q <= table[j].pattern;
      if table[j].pattern == q {
        assert table[j] == Route(m, q);
      }
    }
  }

  /** For nested tables: the match succeeds exactly when some route of the method matches a prefix of
      the levels, and then with the index of the route that is deepest on the branch registered first
      (modulo the 16 bits of an index), and with its parameters. */
  lemma {:induction false} RouterAnswers(table: seq<Route>, m: Method, path: string) returns (q: seq<NodeData>, k: nat)
    requires IsPath(path) && Nested(table)
    ensures var (a, levels) := (Lookup(Build(table), m, path), Levels(path));
            && (a == NoMatch <==> forall q' :: !Eligible(table, m, levels, q'))
            && (a != NoMatch ==>
                  && Eligible(table, m, levels, q) && IsLast(table, m, q, k)
                  && (forall q' :: Eligible(table, m, levels, q') ==> Wins(table, q, q'))
                  && |q| <= |levels| && a == Found(k % INDEX_WIDTH, ParamLevels(q, levels))
                  && (|table| <= 65536 ==> a.index == k))
  {
    hide Candidate, Wins, Lookup, Build, Eligible, Nested;
    q := LookupCorrect(table, m, path);
    k := 0;
    forall q' ensures Eligible(table, m, Levels(path), q') <==> Candidate(table, m, [], Levels(path), q') {
      CandidatesAreEligible(table, m, Levels(path), q');
    }
    if Lookup(Build(table), m, path) != NoMatch {
      k := EligibleIsFound(table, m, path, q);
    }
  }

  lemma EligibleIsFound(table: seq<Route>, m: Method, path: string, q: seq<NodeData>) returns (k: nat)
    requires IsPath(path) && Best(table, m, [], Levels(path), q) && Eligible(table, m, Levels(path), q)
    ensures IsLast(table, m, q, k) && |q| <= |Levels(path)|
    ensures Lookup(Build(table), m, path) == Found(k % INDEX_WIDTH, ParamLevels(q, Levels(path)))
  {
    AnswerOfBest(table, m, path, q);
    k := LastExists(table, m, q);
  }

  /** Without nesting: POST /a answers inside GET /a/b, and GET /a reads a slot nobody wrote. */
  lemma UnnestedTableReadsGarbage()
    ensures var (a, b) := (NodeData(CONSTANT, "a"), NodeData(CONSTANT, "b"));
            Lookup(Build([Route(GET, [a, b]), Route(POST, [a])]), GET, "/a") == Unset([])
  {
    var (a, b) := (NodeData(CONSTANT, "a"), NodeData(CONSTANT, "b"));
    var table := [Route(GET, [a, b]), Route(POST, [a])];
    LevelsOfJoin(["a"]);
    assert Join(["a"]) == "/" + "a" + Join(["a"][1..]) == "/a";
    assert Levels("/a") == ["a"];
    assert table[1].pattern == [a] && table[0].verb == GET && [a] <= table[0].pattern;
    assert Candidate(table, GET, [], ["a"], [a]) by {
      assert [a][0..] == [a] && [a][1..] == [];
      assert Matches([a], ["a"]);
    }
    forall q' | Candidate(table, GET, [], ["a"], q')
      ensures Wins(table, [a], q')
    {
      MatchesLength(q'[0..], ["a"]);
      assert q' == [a];
    }
    AnswerOfBest(table, GET, "/a", [a]);
  }
}
