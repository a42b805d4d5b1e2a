/** How route patterns and request paths split into levels (src/httprouter.cc): "/a/b" has the levels
    a and b, a final slash adds none, and "/" has none at all. */
module RoutePaths {

  /** `find_first_of` from a position; the length of the string stands for npos. */
  function Find(s: string, c: char, from: nat): (i: nat)
    requires from <= |s|
    ensures from <= i <= |s|
    ensures forall k :: from <= k < i ==> s[k] != c
    ensures i < |s| ==> s[i] == c
    decreases |s| - from
  {
    if from == |s| || s[from] == c then from else Find(s, c, from + 1)
  }

  /** Both `insert_path` and `match` assert that a path starts with a slash. */
  predicate IsPath(path: string) {
    path != "" && path[0] == '/'
  }

  function LevelOf(path: string): string
    requires IsPath(path)
  {
    path[1..Find(path, '/', 1)]
  }

  function NextOf(path: string): (next: string)
    requires IsPath(path)
    ensures IsPath(next)
    ensures path != "/" ==> |next| < |path|
  {
    var end := Find(path, '/', 1);
    if end == |path| then "/" else path[end..]
  }

  function Levels(path: string): seq<string>
    requires IsPath(path)
    decreases |path|
  {
    if path == "/" then [] else [LevelOf(path)] + Levels(NextOf(path))
  }

  /** A path from its levels. */
  function Join(levels: seq<string>): string {
    if levels == [] then "" else "/" + levels[0] + Join(levels[1..])
  }

  predicate SlashFree(s: string) {
    forall k :: 0 <= k < |s| ==> s[k] != '/'
  }

  /** Splitting undoes joining: the levels of a path are what was put between its slashes. */
  lemma {:induction false} LevelsOfJoin(levels: seq<string>)
    requires levels != [] && forall l :: l in levels ==> l != "" && SlashFree(l)
    ensures IsPath(Join(levels)) && Levels(Join(levels)) == levels
  {
    var (l, rest) := (levels[0], levels[1..]);
    assert l in levels;
    if rest == [] {
      assert Levels("/") == [];
      FirstLevel(l, "");
    } else {
      assert forall x :: x in rest ==> x in levels;
      LevelsOfJoin(rest);
      FirstLevel(l, Join(rest));
    }
    hide Levels;
    assert Join(levels) == "/" + l + Join(rest);
  }

  lemma FirstLevel(l: string, rest: string)
    requires l != "" && SlashFree(l) && (rest == "" || IsPath(rest))
    ensures var path := "/" + l + rest;
            && IsPath(path) && path != "/" && LevelOf(path) == l
            && NextOf(path) == if rest == "" then "/" else rest
  {
    var path := "/" + l + rest;
    assert forall k :: 1 <= k < 1 + |l| ==> path[k] == l[k - 1] && path[k] != '/';
    if rest != "" {
      assert path[1 + |l|] == rest[0] == '/';
    }
    assert Find(path, '/', 1) == 1 + |l|;
    assert path[1..1 + |l|] == l && path[1 + |l|..] == rest;
  }
}
