/**
 * The worklist that follows browser entries through their modules: it reads each reachable module once
 * and reports exactly the violations of the reachable modules it could read.
 */
module BrowserClosure {
  import opened Basics
  import opened Utf16
  import Reach

  type Source = Text

  /**
   * A module's import, as its specifier is classified: a forbidden one, one followed to a source (none
   * when nothing resolves), one of a workspace package, an allowed one, an unreviewed one.
   */
  datatype Import =
    | Forbidden(specifier: Text)
    | Relative(source: Option<Source>)
    | Workspace(source: Option<Source>)
    | Allowed
    | Unreviewed(specifier: Text)

  datatype Module = Module(usesProcess: bool, imports: seq<Import>)
  datatype Reason = UsesProcess | Imports(specifier: Text) | Depends(specifier: Text)
  datatype Failure = Failure(source: Source, reason: Reason)

  /** What one import makes the walk do: report, follow, or nothing. */
  function ImportFailure(source: Source, i: Import): seq<Failure> {
    match i
    case Forbidden(s) => [Failure(source, Imports(s))]
    case Unreviewed(s) => [Failure(source, Depends(s))]
    case _ => []
  }

  function ImportSource(guarded: set<Source>, i: Import): seq<Source> {
    match i
    case Relative(Some(s)) => [s]
    case Workspace(Some(s)) => if s in guarded then [] else [s]
    case _ => []
  }

  function ImportFailures(source: Source, imports: seq<Import>): seq<Failure> {
    if imports == [] then []
    else ImportFailures(source, imports[..|imports| - 1]) + ImportFailure(source, imports[|imports| - 1])
  }

  function ImportSources(guarded: set<Source>, imports: seq<Import>): seq<Source> {
    if imports == [] then []
    else ImportSources(guarded, imports[..|imports| - 1]) + ImportSource(guarded, imports[|imports| - 1])
  }

  /** Everything wrong with one module, in the order it is reported. */
  function Violations(source: Source, m: Module): seq<Failure> {
    (if m.usesProcess then [Failure(source, UsesProcess)] else []) + ImportFailures(source, m.imports)
  }

  /** The imports followed from each readable module. */
  function Graph(files: map<Source, Module>, guarded: set<Source>): Reach.Graph<Source> {
    map s | s in files :: ImportSources(guarded, files[s].imports)
  }

  lemma {:induction false} FailuresAre(source: Source, imports: seq<Import>, f: Failure)
    ensures f in ImportFailures(source, imports) <==>
      exists i :: i in imports && ((i.Forbidden? && f == Failure(source, Imports(i.specifier)))
                                   || (i.Unreviewed? && f == Failure(source, Depends(i.specifier))))
  {
    if imports != [] {
      var n := |imports| - 1;
      FailuresAre(source, imports[..n], f);
      assert imports == imports[..n] + [imports[n]];
      assert imports[n] in imports && forall i | i in imports[..n] :: i in imports;
    }
  }

  /** The two ways the walk can go on from an import. */
  lemma {:induction false} SourcesAre(guarded: set<Source>, imports: seq<Import>, s: Source)
    ensures s in ImportSources(guarded, imports) <==>
      Relative(Some(s)) in imports || (Workspace(Some(s)) in imports && s !in guarded)
  {
    if imports != [] {
      var n := |imports| - 1;
      SourcesAre(guarded, imports[..n], s);
      assert imports == imports[..n] + [imports[n]];
    }
  }

  // ---------------------------------------------------------------------------------------------
  // The walk

  /** The failures of the readable modules in a list of visited sources, in that order. */
  function AllViolations(files: map<Source, Module>, order: seq<Source>): seq<Failure> {
    if order == [] then []
    else
      var last := order[|order| - 1];
      AllViolations(files, order[..|order| - 1]) + if last in files then Violations(last, files[last]) else []
  }

  ghost predicate Distinct(order: seq<Source>) {
    forall i, j | 0 <= i < j < |order| :: order[i] != order[j]
  }

  lemma ViolationsSnoc(files: map<Source, Module>, order: seq<Source>, s: Source)
    ensures AllViolations(files, order + [s]) ==
      AllViolations(files, order) + if s in files then Violations(s, files[s]) else []
  {
    assert (order + [s])[..|order|] == order;
  }

  lemma {:induction false} ViolationsAre(files: map<Source, Module>, order: seq<Source>, f: Failure)
    ensures f in AllViolations(files, order) <==>
      exists s :: s in order && s in files && f in Violations(s, files[s])
  {
    if order != [] {
      var n := |order| - 1;
      ViolationsAre(files, order[..n], f);
      assert order == order[..n] + [order[n]];
      assert order[n] in order && forall s | s in order[..n] :: s in order;
    }
  }

  /** One readable module: its failures, and what it puts on the stack. */
  method Inspect(source: Source, m: Module, guarded: set<Source>) returns (failures: seq<Failure>, found: seq<Source>)
    ensures failures == Violations(source, m) && found == ImportSources(guarded, m.imports)
  {
    failures, found := [], [];
    if m.usesProcess {
      failures := [Failure(source, UsesProcess)];
    }
    ghost var first := failures;
    for i := 0 to |m.imports|
      invariant failures == first + ImportFailures(source, m.imports[..i])
      invariant found == ImportSources(guarded, m.imports[..i])
    {
      TakeSnoc(m.imports, i);
      assert m.imports[..i + 1][..i] == m.imports[..i];
      failures := failures + ImportFailure(source, m.imports[i]);
      found := found + ImportSource(guarded, m.imports[i]);
    }
    assert m.imports[..|m.imports|] == m.imports;
  }

  ghost predicate Walked(g: Reach.Graph<Source>, roots: seq<Source>, visited: set<Source>, pending: seq<Source>) {
    && Reach.AllReachable(g, roots, visited) && Reach.Closed(g, visited, pending)
    && (forall p | p in pending :: Reach.Reachable(g, roots, p))
    && (forall r | r in roots :: r in visited || r in pending)
  }

  lemma SkipVisited(g: Reach.Graph<Source>, roots: seq<Source>, visited: set<Source>, pending: seq<Source>)
    requires pending != [] && Walked(g, roots, visited, pending) && pending[|pending| - 1] in visited
    ensures Walked(g, roots, visited, pending[..|pending| - 1])
  {
    var n := |pending| - 1;
    assert pending == pending[..n] + [pending[n]];
  }

  lemma VisitOne(g: Reach.Graph<Source>, roots: seq<Source>, visited: set<Source>, pending: seq<Source>)
    requires pending != [] && Walked(g, roots, visited, pending)
    ensures var n := |pending| - 1;
      Walked(g, roots, visited + {pending[n]}, pending[..n] + Reach.Next(g, pending[n]))
  {
    var n := |pending| - 1;
    var p := pending[n];
    var next := Reach.Next(g, p);
    assert pending == pending[..n] + [p];
    assert p in pending;
    forall q | q in pending[..n] + next
      ensures Reach.Reachable(g, roots, q)
    {
      if q in next {
        Reach.NextReachable(g, roots, p, q);
      } else {
        assert q in pending;
      }
    }
  }

  ghost predicate Loop(files: map<Source, Module>, guarded: set<Source>, roots: seq<Source>, visited: set<Source>,
                       pending: seq<Source>, failures: seq<Failure>, order: seq<Source>) {
    && Walked(Graph(files, guarded), roots, visited, pending)
    && failures == AllViolations(files, order) && Distinct(order)
    && (forall s :: s in order <==> s in visited)
  }

  lemma LoopStart(files: map<Source, Module>, guarded: set<Source>, roots: seq<Source>)
    ensures Loop(files, guarded, roots, {}, roots, [], [])
  {
    forall r | r in roots
      ensures Reach.Reachable(Graph(files, guarded), roots, r)
    {
      Reach.RootReachable(Graph(files, guarded), roots, r);
    }
  }

  /** A source not seen before, with what it reports and what it leads to. */
  lemma LoopVisit(files: map<Source, Module>, guarded: set<Source>, roots: seq<Source>, visited: set<Source>,
                  pending: seq<Source>, failures: seq<Failure>, order: seq<Source>)
    requires pending != [] && Loop(files, guarded, roots, visited, pending, failures, order)
    requires pending[|pending| - 1] !in visited
    ensures var path := pending[|pending| - 1];
      var more := if path in files then Violations(path, files[path]) else [];
      Loop(files, guarded, roots, visited + {path}, pending[..|pending| - 1] + Reach.Next(Graph(files, guarded), path),
        failures + more, order + [path])
  {
    VisitOne(Graph(files, guarded), roots, visited, pending);
    ViolationsSnoc(files, order, pending[|pending| - 1]);
  }

  lemma VisitedGrows(files: set<Source>, visited: set<Source>, path: Source)
    requires path !in visited
    ensures path in files ==> |files - (visited + {path})| < |files - visited|
    ensures path !in files ==> files - (visited + {path}) == files - visited
  {
    assert files - (visited + {path}) == (files - visited) - {path};
  }

  /** The worklist: a stack, the visited sources and the failures. */
  method CheckClosures(files: map<Source, Module>, guarded: set<Source>, roots: seq<Source>)
    returns (failures: seq<Failure>, order: seq<Source>)
    ensures failures == AllViolations(files, order) && Distinct(order)
    ensures forall s :: s in order <==> Reach.Reachable(Graph(files, guarded), roots, s)
  {
    var pending, visited: set<Source> := roots, {};
    failures, order := [], [];
    LoopStart(files, guarded, roots);
    while pending != []
      invariant Loop(files, guarded, roots, visited, pending, failures, order)
      decreases |files.Keys - visited|, |pending|
    {
      var path := pending[|pending| - 1];
      if path in visited {
        SkipVisited(Graph(files, guarded), roots, visited, pending);
        pending := pending[..|pending| - 1];
      } else {
        LoopVisit(files, guarded, roots, visited, pending, failures, order);
        VisitedGrows(files.Keys, visited, path);
        var more, found: seq<Source> := [], [];
        if path in files {
          more, found := Inspect(path, files[path], guarded);
        }
        visited, order := visited + {path}, order + [path];
        pending, failures := pending[..|pending| - 1] + found, failures + more;
      }
    }
    WalkEnds(Graph(files, guarded), roots, visited, order);
  }

  lemma WalkEnds(g: Reach.Graph<Source>, roots: seq<Source>, visited: set<Source>, order: seq<Source>)
    requires Walked(g, roots, visited, []) && forall s :: s in order <==> s in visited
    ensures forall s :: s in order <==> Reach.Reachable(g, roots, s)
  {
    forall s
      ensures s in order <==> Reach.Reachable(g, roots, s)
    {
      Reach.ClosedIsReachable(g, roots, visited, s);
    }
  }

  /** A failure is reported exactly when some reachable, readable module has it. */
  lemma ReportedExactly(files: map<Source, Module>, guarded: set<Source>, roots: seq<Source>, order: seq<Source>,
                        f: Failure)
    requires forall s :: s in order <==> Reach.Reachable(Graph(files, guarded), roots, s)
    ensures f in AllViolations(files, order) <==>
      exists s :: s in files && f in Violations(s, files[s]) && Reach.Reachable(Graph(files, guarded), roots, s)
  {
    ViolationsAre(files, order, f);
  }

  ghost predicate Safe(m: Module) {
    !m.usesProcess && forall i | i in m.imports :: !i.Forbidden? && !i.Unreviewed?
  }

  lemma UnsafeIsReported(source: Source, m: Module)
    ensures Safe(m) <==> Violations(source, m) == []
  {
    forall f
      ensures f in ImportFailures(source, m.imports) <==>
        exists i :: i in m.imports && ((i.Forbidden? && f == Failure(source, Imports(i.specifier)))
                                       || (i.Unreviewed? && f == Failure(source, Depends(i.specifier))))
    {
      FailuresAre(source, m.imports, f);
    }
    var all := ImportFailures(source, m.imports);
    if all != [] {
      assert all[0] in all;
    }
    forall i | i in m.imports && (i.Forbidden? || i.Unreviewed?)
      ensures all != []
    {
      assert Failure(source, if i.Forbidden? then Imports(i.specifier) else Depends(i.specifier)) in all;
    }
  }

  /** The check is clean exactly when every reachable module it can read is safe for a browser. */
  lemma CleanExactly(files: map<Source, Module>, guarded: set<Source>, roots: seq<Source>, order: seq<Source>)
    requires forall s :: s in order <==> Reach.Reachable(Graph(files, guarded), roots, s)
    ensures AllViolations(files, order) == [] <==>
      forall s | s in files && Reach.Reachable(Graph(files, guarded), roots, s) :: Safe(files[s])
  {
    var all := AllViolations(files, order);
    if all != [] {
      ReportedExactly(files, guarded, roots, order, all[0]);
      var s :| s in files && all[0] in Violations(s, files[s]) && Reach.Reachable(Graph(files, guarded), roots, s);
      UnsafeIsReported(s, files[s]);
    }
    forall s | s in files && Reach.Reachable(Graph(files, guarded), roots, s)
      ensures all == [] ==> Safe(files[s])
    {
      UnsafeIsReported(s, files[s]);
      if Violations(s, files[s]) != [] {
        ReportedExactly(files, guarded, roots, order, Violations(s, files[s])[0]);
      }
    }
  }
}
