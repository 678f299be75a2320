/**
 * The depth-first walk from the website over workspace dependencies: it lists the directories of exactly
 * the workspaces the website reaches, each once, or fails when the website itself is missing.
 */
module CiScope {
  import opened Basics
  import opened Utf16
  import Reach

  type Name = Text

  /** A workspace; `dependencies` are the keys of its four dependency sections, one after the other. */
  datatype Workspace = Workspace(name: Name, directory: Text, dependencies: seq<Name>)

  /** The lookup by name: a later workspace of a name replaces an earlier one. */
  function ByName(workspaces: seq<Workspace>): map<Name, Workspace> {
    if workspaces == [] then map[]
    else
      var last := workspaces[|workspaces| - 1];
      ByName(workspaces[..|workspaces| - 1])[last.name := last]
  }

  /** The dependencies that are workspaces themselves. */
  function Inside(known: map<Name, Workspace>, names: seq<Name>): seq<Name> {
    if names == [] then []
    else
      var last := names[|names| - 1];
      Inside(known, names[..|names| - 1]) + if last in known then [last] else []
  }

  function Graph(known: map<Name, Workspace>): Reach.Graph<Name> {
    map n | n in known :: Inside(known, known[n].dependencies)
  }

  lemma {:induction false} InsideAre(known: map<Name, Workspace>, names: seq<Name>, x: Name)
    ensures x in Inside(known, names) <==> x in names && x in known
  {
    if names != [] {
      var n := |names| - 1;
      InsideAre(known, names[..n], x);
      assert names == names[..n] + [names[n]];
    }
  }

  ghost predicate Distinct(names: seq<Name>) {
    forall i, j | 0 <= i < j < |names| :: names[i] != names[j]
  }

  /** The names newly visited are reachable, and their successors are visited too. */
  ghost predicate Covers(g: Reach.Graph<Name>, roots: seq<Name>, old_: seq<Name>, new_: seq<Name>) {
    && old_ <= new_
    && (forall x | x in new_ && x !in old_ ::
          Reach.Reachable(g, roots, x) && forall y | y in Reach.Next(g, x) :: y in new_)
  }

  lemma CoversJoin(g: Reach.Graph<Name>, roots: seq<Name>, a: seq<Name>, b: seq<Name>, c: seq<Name>)
    requires Covers(g, roots, a, b) && Covers(g, roots, b, c)
    ensures Covers(g, roots, a, c)
  {
    assert forall i | 0 <= i < |a| :: a[i] == b[i] == c[i];
    assert forall x | x in b :: x in c;
  }

  function Seen(names: seq<Name>): set<Name> {
    set x | x in names
  }

  lemma FewerLeft(keys: set<Name>, before: seq<Name>, first: seq<Name>, now: seq<Name>, name: Name)
    requires name in keys && name !in before && first == before + [name] && first <= now
    ensures keys - Seen(now) < keys - Seen(before)
  {
    assert forall k | 0 <= k < |first| :: first[k] == now[k];
    assert forall x | x in before :: x in first;
    assert first[|before|] == name;
    assert name in Seen(now) && name !in Seen(before);
    assert Seen(before) <= Seen(now);
  }

  /** The set of visited names, in the order they were added. */
  class Walk {
    const known: map<Name, Workspace>
    var visited: seq<Name>

    constructor (known: map<Name, Workspace>)
      ensures this.known == known && visited == []
    {
      this.known := known;
      visited := [];
    }

    ghost predicate Valid()
      reads this
    {
      Distinct(visited) && forall x | x in visited :: x in known
    }

    /** Visits a known name and everything it leads to. */
    method Visit(name: Name, ghost roots: seq<Name>)
      requires Valid() && name in known && Reach.Reachable(Graph(known), roots, name)
      modifies `visited
      ensures Valid() && name in visited && Covers(Graph(known), roots, old(visited), visited)
      ensures old(visited) == visited || (|old(visited)| < |visited| && visited[|old(visited)|] == name)
      decreases known.Keys - Seen(visited)
    {
      if name in visited {
        return;
      }
      ghost var before := visited;
      visited := visited + [name];
      ghost var first := visited;
      ghost var g := Graph(known);
      assert first[|before|] == name;
      var dependencies := known[name].dependencies;
      for i := 0 to |dependencies|
        invariant Valid() && name in visited && Covers(g, roots, first, visited)
        invariant forall k | 0 <= k < i :: dependencies[k] in known ==> dependencies[k] in visited
      {
        var dependency := dependencies[i];
        if dependency in known {
          InsideAre(known, dependencies, dependency);
          Reach.NextReachable(g, roots, name, dependency);
          ghost var middle := visited;
          FewerLeft(known.Keys, before, first, visited, name);
          Visit(dependency, roots);
          CoversJoin(g, roots, first, middle, visited);
        }
      }
      VisitCovers(known, roots, before, name, visited);
    }
  }

  lemma VisitCovers(known: map<Name, Workspace>, roots: seq<Name>, before: seq<Name>, name: Name, after: seq<Name>)
    requires name in known && Reach.Reachable(Graph(known), roots, name)
    requires Covers(Graph(known), roots, before + [name], after)
    requires forall k | 0 <= k < |known[name].dependencies| ::
      known[name].dependencies[k] in known ==> known[name].dependencies[k] in after
    ensures Covers(Graph(known), roots, before, after)
  {
    var g := Graph(known);
    assert forall i | 0 <= i < |before| :: (before + [name])[i] == before[i];
    forall x | x in after && x !in before
      ensures Reach.Reachable(g, roots, x) && forall y | y in Reach.Next(g, x) :: y in after
    {
      if x == name {
        forall y | y in Reach.Next(g, x)
          ensures y in after
        {
          InsideAre(known, known[name].dependencies, y);
        }
      }
    }
  }

  /** A walk from nothing that holds its root has visited exactly what the root reaches. */
  lemma AllVisited(g: Reach.Graph<Name>, root: Name, names: seq<Name>)
    requires Covers(g, [root], [], names) && root in names
    ensures forall x :: x in names <==> Reach.Reachable(g, [root], x)
  {
    var seen := Seen(names);
    forall x
      ensures x in names <==> Reach.Reachable(g, [root], x)
    {
      Reach.ClosedIsReachable(g, [root], seen, x);
    }
  }

  const SITE: string := "@ue-shed/site"

  function Directories(known: map<Name, Workspace>, names: seq<Name>): seq<Text>
    requires forall x | x in names :: x in known
  {
    seq(|names|, i requires 0 <= i < |names| => assert names[i] in names; known[names[i]].directory)
  }

  /**
   * The website's workspace directories: None when the website is missing, and that alone fails; otherwise
   * one directory for each workspace the website reaches, the website first.
   */
  method SiteWorkspaceDirectories(workspaces: seq<Workspace>) returns (r: Option<seq<Text>>, names: seq<Name>)
    ensures var known := ByName(workspaces);
      var root := Ascii(SITE);
      && (r.None? <==> root !in known)
      && (r.Some? ==>
            && Distinct(names) && names != [] && names[0] == root
            && (forall x :: x in names <==> Reach.Reachable(Graph(known), [root], x))
            && (forall x | x in names :: x in known)
            && r.value == Directories(known, names))
  {
    var known := ByName(workspaces);
    var root := Ascii(SITE);
    names := [];
    if root !in known {
      return None, [];
    }
    ghost var g := Graph(known);
    var walk := new Walk(known);
    Reach.RootReachable(g, [root], root);
    walk.Visit(root, [root]);
    names := walk.visited;
    AllVisited(g, root, names);
    r := Some(Directories(known, walk.visited));
  }
}
