/**
 * The package a plan records as deleted: in the finished plan, unless it was a data table that placement
 * had emptied, which can be drawn and is then dropped.
 */
module CorpusDeletion {
  import opened Basics
  import opened CorpusDraws
  import opened CorpusPlan
  import opened CorpusEdits
  import opened CorpusLockstep
  import CorpusPlanner
  import CorpusWhole

  // ---------------------------------------------------------------------------------------------
  // Paths

  ghost predicate DistinctPaths(packages: seq<Package>) {
    forall p, q | 0 <= p < q < |packages| :: packages[p].path != packages[q].path
  }

  ghost predicate HasPath(packages: seq<Package>, path: string) {
    exists p :: 0 <= p < |packages| && packages[p].path == path
  }

  /** Some package of the path has a text. */
  ghost predicate HasText(packages: seq<Package>, path: string) {
    exists p :: 0 <= p < |packages| && packages[p].path == path && packages[p].lines != []
  }

  lemma {:induction false} NonEmptyHolds(packages: seq<Package>, owner: Package)
    ensures owner in NonEmpty(packages) <==> owner in packages && owner.lines != []
  {
    if packages != [] {
      var n := |packages| - 1;
      NonEmptyHolds(packages[..n], owner);
      assert packages == packages[..n] + [packages[n]];
    }
  }

  lemma NonEmptyPath(packages: seq<Package>, path: string)
    ensures HasPath(NonEmpty(packages), path) <==> HasText(packages, path)
  {
    if HasPath(NonEmpty(packages), path) {
      var i :| 0 <= i < |NonEmpty(packages)| && NonEmpty(packages)[i].path == path;
      NonEmptyHolds(packages, NonEmpty(packages)[i]);
      var p :| 0 <= p < |packages| && packages[p] == NonEmpty(packages)[i];
    }
    if HasText(packages, path) {
      var p :| 0 <= p < |packages| && packages[p].path == path && packages[p].lines != [];
      NonEmptyHolds(packages, packages[p]);
      var i :| 0 <= i < |NonEmpty(packages)| && NonEmpty(packages)[i] == packages[p];
    }
  }

  const EDITS: string := "/Edits/"
  const ADDED: string := "/Edits/Added_"
  const EDIT_PROBE: string := "/Edits/EditProbe"
  const DELETE_PROBE: string := "/Edits/DeleteProbe"

  /** The paths of a corpus before its edits: distinct, and none where the edits put their own packages. */
  ghost predicate OwnPaths(packages: seq<Package>, root: string) {
    DistinctPaths(packages) && forall p | 0 <= p < |packages| :: !(root + EDITS <= packages[p].path)
  }

  /** The same once the text edits may have brought their probe. */
  ghost predicate StepPaths(packages: seq<Package>, root: string) {
    && DistinctPaths(packages)
    && forall p | 0 <= p < |packages| ::
      packages[p].path != root + DELETE_PROBE && !(root + ADDED <= packages[p].path)
  }

  lemma Under(root: string, tail: string, more: string)
    ensures root + EDITS <= root + (EDITS + tail)
    ensures root + (ADDED + more) != root + DELETE_PROBE && !(root + ADDED <= root + DELETE_PROBE)
    ensures !(root + ADDED <= root + EDIT_PROBE) && root + EDIT_PROBE != root + DELETE_PROBE
    ensures root + ADDED <= root + (ADDED + more)
  {
    var n := |root|;
    assert (root + ADDED)[n + 7] == ADDED[7] == 'A';
    assert (root + DELETE_PROBE)[n + 7] == DELETE_PROBE[7] == 'D';
    assert (root + EDIT_PROBE)[n + 7] == EDIT_PROBE[7] == 'E';
    assert (root + (ADDED + more))[n + 7] == ADDED[7];
    assert (root + (EDITS + tail))[..n + |EDITS|] == root + EDITS;
    assert (root + (ADDED + more))[..n + |ADDED|] == root + ADDED;
  }

  lemma UnderEdits(root: string, path: string)
    requires root + ADDED <= path || path == root + DELETE_PROBE || path == root + EDIT_PROBE
    ensures root + EDITS <= path
  {
    var n := |root| + |EDITS|;
    assert ADDED[..7] == EDITS && DELETE_PROBE[..7] == EDITS && EDIT_PROBE[..7] == EDITS;
    if root + ADDED <= path {
      assert path[..n] == (root + ADDED)[..n] == root + ADDED[..7];
    } else if path == root + DELETE_PROBE {
      assert path[..n] == root + DELETE_PROBE[..7];
    } else {
      assert path[..n] == root + EDIT_PROBE[..7];
    }
  }

  lemma AddedPath(root: string, seed: nat, value: nat, w: Wording)
    ensures root + ADDED <= AddedPackage(root, seed, value, w).path
  {
    var digits := Decimal(Drawn(Next(Next(value)), 1000, 9999));
    var path := root + "/Edits/" + ("Added_" + digits);
    assert ADDED == EDITS + "Added_";
    assert path[..|root| + |ADDED|] == root + ADDED;
    assert AddedPackage(root, seed, value, w).path == path;
  }

  // ---------------------------------------------------------------------------------------------
  // One draw

  lemma {:induction false} DeletablesAre(packages: seq<Package>, named: seq<string>, p: nat)
    ensures p in Deletables(packages, named) <==> p < |packages| && Deletable(packages[p], named)
  {
    if packages != [] {
      DeletablesAre(packages[..|packages| - 1], named, p);
    }
  }

  lemma DeletionPaths(packages: seq<Package>, named: seq<string>, value: nat, inputs: Inputs)
    requires StepPaths(packages, inputs.root)
    ensures var (some, p) := Deletion(packages, named, inputs.root, inputs.seed, value, inputs.wording);
      && DistinctPaths(some) && !(inputs.root + ADDED <= some[p].path)
      && packages <= some && (p < |packages| ==> Deletable(some[p], named)) && (p >= |packages| ==> some[p].lines != [])
  {
    var (some, p) := Deletion(packages, named, inputs.root, inputs.seed, value, inputs.wording);
    Under(inputs.root, "", "");
    if Deletables(packages, named) != [] {
      DeletablesAre(packages, named, p);
    }
  }

  lemma DistinctPlace(packages: seq<Package>, p: nat)
    requires DistinctPaths(packages) && p < |packages|
    ensures HasText(packages, packages[p].path) <==> packages[p].lines != []
  {
    if HasText(packages, packages[p].path) {
      var q :| 0 <= q < |packages| && packages[q].path == packages[p].path && packages[q].lines != [];
    }
  }

  /** Marking a package as deleted and adding one of another path leaves the texts of a path where they are. */
  lemma DeletedText(packages: seq<Package>, p: nat, added: Package, path: string)
    requires p < |packages| && added.path != path
    ensures HasText(DeleteAt(packages, p) + [added], path) <==> HasText(packages, path)
  {
    var after := DeleteAt(packages, p) + [added];
    assert forall q | 0 <= q < |packages| ::
      after[q].path == packages[q].path && (after[q].lines == [] <==> packages[q].lines == []);
    if HasText(after, path) {
      var q :| 0 <= q < |after| && after[q].path == path && after[q].lines != [];
      assert q < |packages|;
    }
    if HasText(packages, path) {
      var q :| 0 <= q < |packages| && packages[q].path == path && packages[q].lines != [];
      assert after[q].path == path;
    }
  }

  /** The last package recorded as deleted is kept in the finished plan. */
  ghost predicate PlansDeleted(plan: Plan) {
    plan.edits.deleted != [] && HasPath(NonEmpty(plan.packages), plan.edits.deleted[|plan.edits.deleted| - 1])
  }

  /** For one draw, in either phase: the deleted path is planned exactly when the drawn package has a text. */
  lemma DrawnIsPlanned(packages: seq<Package>, edits: Edits, value: nat, phase: Phase, inputs: Inputs)
    requires StepPaths(packages, inputs.root)
    ensures var (some, p) := Deletion(packages, edits.packages, inputs.root, inputs.seed, value, inputs.wording);
      var plan := EditRest(packages, edits, value, phase, inputs);
      && plan.edits.deleted == edits.deleted + [some[p].path]
      && (PlansDeleted(plan) <==> some[p].lines != [])
  {
    var (some, p) := Deletion(packages, edits.packages, inputs.root, inputs.seed, value, inputs.wording);
    var plan := EditRest(packages, edits, value, phase, inputs);
    var added := AddedPackage(inputs.root, inputs.seed, AfterDeletion(packages, edits.packages, value), inputs.wording);
    var path := some[p].path;
    DeletionPaths(packages, edits.packages, value, inputs);
    AddedPath(inputs.root, inputs.seed, AfterDeletion(packages, edits.packages, value), inputs.wording);
    NonEmptyPath(plan.packages, path);
    DistinctPlace(some, p);
    DeletedText(some, p, added, path);
    assert plan.edits.deleted[|plan.edits.deleted| - 1] == path;
  }

  // ---------------------------------------------------------------------------------------------
  // Every draw

  predicate EmptyAt(packages: seq<Package>, p: nat) {
    p < |packages| && packages[p].lines == []
  }

  /** No deletable package that a draw can reach is empty. */
  ghost predicate NoneEmpty(packages: seq<Package>, named: seq<string>) {
    var found := Deletables(packages, named);
    forall i | 0 <= i < |found| && i < REACH :: !EmptyAt(packages, found[i])
  }

  lemma SomeDraw(packages: seq<Package>, named: seq<string>, i: nat, inputs: Inputs) returns (value: nat)
    requires i < |Deletables(packages, named)| && i < REACH
    ensures value < WORD
    ensures Deletion(packages, named, inputs.root, inputs.seed, value, inputs.wording) ==
      (packages, Deletables(packages, named)[i])
  {
    value := Reached(i * 256);
    DrawnAt(Next(value), |Deletables(packages, named)|, i);
  }

  lemma AnyDraw(packages: seq<Package>, named: seq<string>, value: nat, inputs: Inputs)
    requires NoneEmpty(packages, named)
    ensures var (some, p) := Deletion(packages, named, inputs.root, inputs.seed, value, inputs.wording);
      some[p].lines != []
  {
    var found := Deletables(packages, named);
    if found != [] {
      DrawnBelow(Next(value), |found|);
      var i := Drawn(Next(value), 0, |found| - 1);
      assert Pick(found, value) == found[i] && found[i] in found;
      assert !EmptyAt(packages, found[i]);
    }
  }

  /** The deleted path is planned, whatever the next draw. */
  ghost predicate AllPlanned(packages: seq<Package>, edits: Edits, phase: Phase, inputs: Inputs) {
    forall value: nat | value < WORD :: PlansDeleted(EditRest(packages, edits, value, phase, inputs))
  }

  /**
   * In either phase, the deleted path is planned for every draw if and only if no deletable package that a
   * draw can reach is empty.
   */
  lemma EveryDraw(packages: seq<Package>, edits: Edits, phase: Phase, inputs: Inputs)
    requires StepPaths(packages, inputs.root)
    ensures NoneEmpty(packages, edits.packages) <==> AllPlanned(packages, edits, phase, inputs)
  {
    var found := Deletables(packages, edits.packages);
    if NoneEmpty(packages, edits.packages) {
      forall value: nat | value < WORD
        ensures PlansDeleted(EditRest(packages, edits, value, phase, inputs))
      {
        DrawnIsPlanned(packages, edits, value, phase, inputs);
        AnyDraw(packages, edits.packages, value, inputs);
      }
    } else {
      var i :| 0 <= i < |found| && i < REACH && EmptyAt(packages, found[i]);
      var value := SomeDraw(packages, edits.packages, i, inputs);
      DrawnIsPlanned(packages, edits, value, phase, inputs);
      assert !PlansDeleted(EditRest(packages, edits, value, phase, inputs));
    }
  }

  // ---------------------------------------------------------------------------------------------
  // The corpus the deletion is drawn from

  /** The same package with as many texts; a background text is one that was a background text. */
  ghost predicate Worn(a: Package, b: Package) {
    && SameShell(a, b)
    && forall l | 0 <= l < |a.lines| :: b.lines[l].name == BACKGROUND ==> a.lines[l].name == BACKGROUND
  }

  ghost predicate WornAll(a: seq<Package>, b: seq<Package>) {
    |a| == |b| && forall p | 0 <= p < |a| :: Worn(a[p], b[p])
  }

  lemma WornOn(a: seq<Package>, b: seq<Package>, c: seq<Package>)
    requires WornAll(a, b) && WornAll(b, c)
    ensures WornAll(a, c)
  {
    forall p | 0 <= p < |a|
      ensures Worn(a[p], c[p])
    {
      assert Worn(a[p], b[p]) && Worn(b[p], c[p]);
    }
  }

  lemma SettleWears(packages: seq<Package>, phase: Phase)
    ensures WornAll(packages, SettleAll(packages, phase))
  {
    forall p | 0 <= p < |packages|
      ensures Worn(packages[p], SettleAll(packages, phase)[p])
    {
      assert SettleAll(packages, phase)[p] == SettlePackage(packages[p], phase);
    }
  }

  lemma ReplaceWears(packages: seq<Package>, at: Place, line: Line)
    requires InPlan(packages, at) && line.name != BACKGROUND
    ensures WornAll(packages, Replace(packages, at, line))
  {
  }

  lemma ApplyWears(packages: seq<Package>, e: TextEdits)
    requires Tokened(packages, e) && Marked(packages, e)
    ensures WornAll(packages, ApplyTexts(packages, e))
  {
    var source := EditSource(At(packages, e.source), "Reef " + TokenAt(packages, e.source));
    var one := Replace(packages, e.source, source);
    var po := EditPo(At(packages, e.po), e.culture, "Import " + TokenAt(packages, e.po));
    var two := Replace(one, e.po, po);
    var archive := EditArchive(At(packages, e.archive), e.culture, "Archiv " + TokenAt(packages, e.archive));
    assert source.name[0] == po.name[0] == archive.name[0] == 'e' && BACKGROUND[0] == 'b';
    ReplaceWears(packages, e.source, source);
    ReplaceWears(one, e.po, po);
    ReplaceWears(two, e.archive, archive);
    WornOn(packages, one, two);
    WornOn(packages, two, ApplyTexts(packages, e));
  }

  /** The phase comes as far as the deletion: its text edits do not throw. */
  predicate Runs(packages: seq<Package>, phase: Phase, inputs: Inputs) {
    var a, value := SettleAll(packages, phase), EditSeed(inputs.seed);
    Editable(Probed(a, inputs.root, inputs.seed, value, inputs.wording), DrawnTexts(a, value), phase)
  }

  /** What the deletion is drawn from, with the edits registered so far. */
  function BeforeDeletion(packages: seq<Package>, phase: Phase, inputs: Inputs): (r: (seq<Package>, Edits))
    requires Runs(packages, phase, inputs)
  {
    var a, value := SettleAll(packages, phase), EditSeed(inputs.seed);
    var x, e := Probed(a, inputs.root, inputs.seed, value, inputs.wording), DrawnTexts(a, value);
    (if phase.After? then ApplyTexts(x, e) else x, RegisterTexts(x, e, SettleAllEdits(packages, NO_EDITS)))
  }

  lemma FinishIs(packages: seq<Package>, phase: Phase, inputs: Inputs)
    ensures Finish(packages, phase, inputs).Some? <==> Runs(packages, phase, inputs)
    ensures Runs(packages, phase, inputs) ==>
      var (some, edits) := BeforeDeletion(packages, phase, inputs);
      var plan := EditRest(some, edits, AfterTexts(SettleAll(packages, phase), EditSeed(inputs.seed)), phase, inputs);
      Finish(packages, phase, inputs) == Some(Plan(NonEmpty(plan.packages), plan.edits))
  {
  }

  /** The packages of the corpus in their places, and behind them at most the probe of the text edits. */
  ghost predicate Grown(packages: seq<Package>, some: seq<Package>, root: string) {
    && |packages| <= |some| <= |packages| + 1 && WornAll(packages, some[..|packages|])
    && (|some| > |packages| ==> some[|packages|].path == root + EDIT_PROBE && some[|packages|].lines != [])
  }

  lemma ProbedGrows(packages: seq<Package>, a: seq<Package>, value: nat, inputs: Inputs)
    requires WornAll(packages, a)
    ensures Grown(packages, Probed(a, inputs.root, inputs.seed, value, inputs.wording), inputs.root)
  {
    var found := |Candidates(a)|;
    if found < 3 {
      var probe := EditProbe(found, inputs.root, inputs.seed, value, inputs.wording);
      assert probe.path == inputs.root + EDIT_PROBE && |probe.lines| == 3 - found;
      assert (a + [probe])[..|packages|] == a;
    } else {
      assert a[..|packages|] == a;
    }
  }

  lemma GrownWears(packages: seq<Package>, some: seq<Package>, more: seq<Package>, root: string)
    requires Grown(packages, some, root) && WornAll(some, more)
    ensures Grown(packages, more, root)
  {
    var n := |packages|;
    assert forall p | 0 <= p < n :: Worn(some[p], more[p]) && some[..n][p] == some[p] && more[..n][p] == more[p];
    assert WornAll(some[..n], more[..n]);
    WornOn(packages, some[..n], more[..n]);
    if |some| > n {
      assert Worn(some[n], more[n]);
    }
  }

  lemma BeforeGrown(packages: seq<Package>, phase: Phase, inputs: Inputs)
    requires Runs(packages, phase, inputs)
    ensures Grown(packages, BeforeDeletion(packages, phase, inputs).0, inputs.root)
  {
    var a, value := SettleAll(packages, phase), EditSeed(inputs.seed);
    var x, e := Probed(a, inputs.root, inputs.seed, value, inputs.wording), DrawnTexts(a, value);
    SettleWears(packages, phase);
    ProbedGrows(packages, a, value, inputs);
    if phase.After? {
      ApplyWears(x, e);
      GrownWears(packages, x, ApplyTexts(x, e), inputs.root);
    }
  }

  lemma GrownAt(packages: seq<Package>, some: seq<Package>, root: string, p: nat)
    requires Grown(packages, some, root) && p < |packages|
    ensures Worn(packages[p], some[p])
  {
    assert Worn(packages[p], some[..|packages|][p]);
  }

  lemma GrownPaths(packages: seq<Package>, some: seq<Package>, root: string)
    requires OwnPaths(packages, root) && Grown(packages, some, root)
    ensures StepPaths(some, root)
  {
    Under(root, "", "");
    forall p | 0 <= p < |some|
      ensures some[p].path != root + DELETE_PROBE && !(root + ADDED <= some[p].path)
      ensures p < |packages| ==> some[p].path == packages[p].path && some[p].path != root + EDIT_PROBE
    {
      if p < |packages| {
        GrownAt(packages, some, root, p);
        if root + ADDED <= some[p].path || some[p].path == root + DELETE_PROBE || some[p].path == root + EDIT_PROBE {
          UnderEdits(root, some[p].path);
          assert false;
        }
      }
    }
  }

  // ---------------------------------------------------------------------------------------------
  // What is named before the deletion

  lemma {:induction false} SettleNamesOnly(packages: seq<Package>, edits: Edits, path: string)
    ensures path in SettleAllEdits(packages, edits).packages ==> path in edits.packages || HasText(packages, path)
    ensures SettleAllEdits(packages, edits).deleted == edits.deleted
  {
    if packages != [] {
      var n := |packages| - 1;
      SettleNamesOnly(packages[..n], edits, path);
      if HasText(packages[..n], path) {
        var p :| 0 <= p < n && packages[..n][p].path == path && packages[..n][p].lines != [];
        assert packages[p].path == path;
      }
      assert packages[n].lines != [] && packages[n].path == path ==> HasText(packages, path);
    }
  }

  lemma TextsName(packages: seq<Package>, e: TextEdits, edits: Edits, path: string)
    requires Tokened(packages, e)
    ensures path in RegisterTexts(packages, e, edits).packages ==> path in edits.packages || HasText(packages, path)
    ensures RegisterTexts(packages, e, edits).deleted == edits.deleted
  {
    RegisterTextsNames(packages, e, edits);
    var all := RegisterTexts(packages, e, edits).packages;
    if path in all {
      InNames(all, path);
      if path in Names(edits.packages) {
        InNames(edits.packages, path);
      }
    }
  }

  lemma InNames(s: seq<string>, x: string)
    ensures x in Names(s) <==> x in s
  {
  }

  lemma GrownText(packages: seq<Package>, some: seq<Package>, root: string, p: nat)
    requires OwnPaths(packages, root) && Grown(packages, some, root) && p < |packages| && packages[p].lines == []
    ensures some[p].path == packages[p].path && some[p].lines == [] && some[p].kind == packages[p].kind
    ensures !HasText(some, packages[p].path)
  {
    GrownAt(packages, some, root, p);
    GrownPaths(packages, some, root);
    DistinctPlace(some, p);
  }

  /** A package without texts is never named before the deletion. */
  lemma EmptyUnnamed(packages: seq<Package>, phase: Phase, inputs: Inputs, p: nat)
    requires OwnPaths(packages, inputs.root) && Runs(packages, phase, inputs)
    requires p < |packages| && packages[p].lines == []
    ensures packages[p].path !in BeforeDeletion(packages, phase, inputs).1.packages
    ensures BeforeDeletion(packages, phase, inputs).1.deleted == []
  {
    var a, value := SettleAll(packages, phase), EditSeed(inputs.seed);
    var x, e := Probed(a, inputs.root, inputs.seed, value, inputs.wording), DrawnTexts(a, value);
    var path := packages[p].path;
    SettleWears(packages, phase);
    ProbedGrows(packages, a, value, inputs);
    GrownText(packages, x, inputs.root, p);
    SettleNamesOnly(packages, NO_EDITS, path);
    DistinctPlace(packages, p);
    TextsName(x, e, SettleAllEdits(packages, NO_EDITS), path);
  }

  lemma NothingDeleted(packages: seq<Package>, phase: Phase, inputs: Inputs)
    requires Runs(packages, phase, inputs)
    ensures BeforeDeletion(packages, phase, inputs).1.deleted == []
  {
    var a, value := SettleAll(packages, phase), EditSeed(inputs.seed);
    var x, e := Probed(a, inputs.root, inputs.seed, value, inputs.wording), DrawnTexts(a, value);
    SettleNamesOnly(packages, NO_EDITS, "");
    TextsName(x, e, SettleAllEdits(packages, NO_EDITS), "");
  }

  /** Of three places all are drawn. */
  lemma ThreeDrawn(places: seq<Place>, value: nat, mine: Place)
    requires |places| == 3 && mine in places
    ensures var order := Shuffled(places, value); mine == order[0] || mine == order[1] || mine == order[2]
  {
    var order := Shuffled(places, value);
    ShufflePermutes(places, value);
    assert mine in multiset(order);
    assert order == [order[0], order[1], order[2]];
  }

  /** A probe of the text edits has one of the drawn texts. */
  lemma ProbeDrawn(a: seq<Package>, value: nat)
    requires |Candidates(a)| < 3
    ensures var e := DrawnTexts(a, value); |a| in {e.source.owner, e.po.owner, e.archive.owner}
  {
    var places, mine := ProbedPlaces(a), Place(|a|, 0);
    assert places[|Candidates(a)|] == mine;
    ThreeDrawn(places, AfterProbe(a, value), mine);
  }

  lemma OwnerNamed(packages: seq<Package>, e: TextEdits, edits: Edits, p: nat)
    requires Tokened(packages, e) && p in {e.source.owner, e.po.owner, e.archive.owner}
    ensures packages[p].path in RegisterTexts(packages, e, edits).packages
  {
    RegisterTextsNames(packages, e, edits);
    InNames(RegisterTexts(packages, e, edits).packages, packages[p].path);
  }

  /** So it is named by them. */
  lemma ProbeNamed(packages: seq<Package>, phase: Phase, inputs: Inputs)
    requires Runs(packages, phase, inputs) && |BeforeDeletion(packages, phase, inputs).0| > |packages|
    ensures inputs.root + EDIT_PROBE in BeforeDeletion(packages, phase, inputs).1.packages
  {
    var a, value := SettleAll(packages, phase), EditSeed(inputs.seed);
    var x, e := Probed(a, inputs.root, inputs.seed, value, inputs.wording), DrawnTexts(a, value);
    ProbeDrawn(a, value);
    SettleWears(packages, phase);
    ProbedGrows(packages, a, value, inputs);
    OwnerNamed(x, e, SettleAllEdits(packages, NO_EDITS), |a|);
  }

  // ---------------------------------------------------------------------------------------------
  // The finished plan

  /** A data table of the corpus without texts. */
  predicate EmptyTable(owner: Package) {
    owner.kind.DataTable? && owner.lines == []
  }

  /** The path of a data table without texts. */
  ghost predicate Emptied(packages: seq<Package>, path: string) {
    exists p :: 0 <= p < |packages| && EmptyTable(packages[p]) && packages[p].path == path
  }

  predicate NoEmptyTable(packages: seq<Package>) {
    forall p | 0 <= p < |packages| :: !EmptyTable(packages[p])
  }

  /** What the deletion draws is an emptied data table of the corpus, or has texts. */
  lemma DrawnEmptied(packages: seq<Package>, some: seq<Package>, named: seq<string>, value: nat, inputs: Inputs)
    requires OwnPaths(packages, inputs.root) && Grown(packages, some, inputs.root)
    ensures var (all, p) := Deletion(some, named, inputs.root, inputs.seed, value, inputs.wording);
      all[p].lines == [] <==> Emptied(packages, all[p].path)
  {
    var (all, p) := Deletion(some, named, inputs.root, inputs.seed, value, inputs.wording);
    GrownPaths(packages, some, inputs.root);
    DeletionPaths(some, named, value, inputs);
    if all[p].lines == [] {
      assert some[p] == all[p];
      GrownAt(packages, some, inputs.root, p);
      assert EmptyTable(packages[p]);
    }
    if Emptied(packages, all[p].path) {
      var q :| 0 <= q < |packages| && EmptyTable(packages[q]) && packages[q].path == all[p].path;
      GrownAt(packages, some, inputs.root, q);
      assert all[q] == some[q];
    }
  }

  /**
   * In either phase one path is recorded as deleted, and the finished plan has a package of that path if and
   * only if it is not the path of a data table that came without texts.
   */
  lemma DeletedIsPlanned(packages: seq<Package>, phase: Phase, inputs: Inputs)
    requires OwnPaths(packages, inputs.root) && Finish(packages, phase, inputs).Some?
    ensures var plan := Finish(packages, phase, inputs).value;
      && |plan.edits.deleted| == 1
      && (HasPath(plan.packages, plan.edits.deleted[0]) <==> !Emptied(packages, plan.edits.deleted[0]))
  {
    FinishIs(packages, phase, inputs);
    BeforeGrown(packages, phase, inputs);
    NothingDeleted(packages, phase, inputs);
    var (some, edits) := BeforeDeletion(packages, phase, inputs);
    var value := AfterTexts(SettleAll(packages, phase), EditSeed(inputs.seed));
    GrownPaths(packages, some, inputs.root);
    DrawnIsPlanned(some, edits, value, phase, inputs);
    DrawnEmptied(packages, some, edits.packages, value, inputs);
  }

  /** So without such a data table the deleted path is planned, whatever the seed and the wording. */
  lemma AlwaysPlanned(packages: seq<Package>, phase: Phase, inputs: Inputs)
    requires OwnPaths(packages, inputs.root) && Finish(packages, phase, inputs).Some?
    requires NoEmptyTable(packages)
    ensures var plan := Finish(packages, phase, inputs).value; HasPath(plan.packages, plan.edits.deleted[0])
  {
    DeletedIsPlanned(packages, phase, inputs);
  }

  /** Every emptied data table can be drawn. */
  lemma EmptyIsDeletable(packages: seq<Package>, phase: Phase, inputs: Inputs, p: nat)
    requires OwnPaths(packages, inputs.root) && Runs(packages, phase, inputs)
    requires p < |packages| && EmptyTable(packages[p])
    ensures var (some, edits) := BeforeDeletion(packages, phase, inputs);
      p in Deletables(some, edits.packages) && EmptyAt(some, p)
  {
    var (some, edits) := BeforeDeletion(packages, phase, inputs);
    BeforeGrown(packages, phase, inputs);
    GrownText(packages, some, inputs.root, p);
    EmptyUnnamed(packages, phase, inputs, p);
    DeletablesAre(some, edits.packages, p);
  }

  lemma EmptyIsEmptied(packages: seq<Package>, some: seq<Package>, root: string, named: seq<string>, p: nat)
    requires Grown(packages, some, root) && p in Deletables(some, named) && EmptyAt(some, p)
    ensures p < |packages| && EmptyTable(packages[p])
  {
    DeletablesAre(some, named, p);
    if p < |packages| {
      GrownAt(packages, some, root, p);
    }
  }

  lemma EmptyFound(some: seq<Package>, named: seq<string>, p: nat)
    requires p in Deletables(some, named) && EmptyAt(some, p) && |some| <= REACH
    ensures !NoneEmpty(some, named)
  {
    DeletablesFit(some, named);
    var i :| 0 <= i < |Deletables(some, named)| && Deletables(some, named)[i] == p;
  }

  lemma NoneEmptyExactly(packages: seq<Package>, some: seq<Package>, root: string, named: seq<string>)
    requires Grown(packages, some, root) && |some| <= REACH
    requires forall p | 0 <= p < |packages| && EmptyTable(packages[p]) ::
      p in Deletables(some, named) && EmptyAt(some, p)
    ensures NoneEmpty(some, named) <==> NoEmptyTable(packages)
  {
    if p: nat :| p < |packages| && EmptyTable(packages[p]) {
      EmptyFound(some, named, p);
    } else if !NoneEmpty(some, named) {
      var found := Deletables(some, named);
      var i :| 0 <= i < |found| && i < REACH && EmptyAt(some, found[i]);
      EmptyIsEmptied(packages, some, root, named, found[i]);
    }
  }

  /**
   * In either phase, with the text edits as they are: the deleted path is planned whatever the next draw if
   * and only if no data table of the corpus is without texts. (Among more than 2^24 packages a draw does not
   * reach them all.)
   */
  lemma EveryDeletionPlanned(packages: seq<Package>, phase: Phase, inputs: Inputs)
    requires OwnPaths(packages, inputs.root) && Runs(packages, phase, inputs)
    ensures var (some, edits) := BeforeDeletion(packages, phase, inputs);
      |some| <= REACH ==> (AllPlanned(some, edits, phase, inputs) <==> NoEmptyTable(packages))
  {
    BeforeGrown(packages, phase, inputs);
    var (some, edits) := BeforeDeletion(packages, phase, inputs);
    GrownPaths(packages, some, inputs.root);
    EveryDraw(some, edits, phase, inputs);
    forall p | 0 <= p < |packages| && EmptyTable(packages[p])
      ensures p in Deletables(some, edits.packages) && EmptyAt(some, p)
    {
      EmptyIsDeletable(packages, phase, inputs, p);
    }
    if |some| <= REACH {
      NoneEmptyExactly(packages, some, inputs.root, edits.packages);
    }
  }

  lemma {:induction false} DeletablesFit(packages: seq<Package>, named: seq<string>)
    ensures |Deletables(packages, named)| <= |packages|
  {
    if packages != [] {
      DeletablesFit(packages[..|packages| - 1], named);
    }
  }

  // ---------------------------------------------------------------------------------------------
  // Where it always fails

  /** A data table that is empty, or holds a text that is no background text. */
  predicate Undrawable(owner: Package) {
    owner.kind.DataTable? ==>
      owner.lines == [] || exists l :: 0 <= l < |owner.lines| && owner.lines[l].name != BACKGROUND
  }

  lemma OnlyEmptyDeletable(packages: seq<Package>, some: seq<Package>, root: string, named: seq<string>, p: nat)
    requires Grown(packages, some, root) && forall q | 0 <= q < |packages| :: Undrawable(packages[q])
    requires |some| > |packages| ==> root + EDIT_PROBE in named
    requires p in Deletables(some, named)
    ensures EmptyAt(some, p)
  {
    DeletablesAre(some, named, p);
    if p < |packages| {
      GrownAt(packages, some, root, p);
      assert Undrawable(packages[p]);
    }
  }

  /** One path is recorded as deleted, that of an emptied data table, and no package of the plan has it. */
  ghost predicate Unplanned(packages: seq<Package>, plan: Plan) {
    && |plan.edits.deleted| == 1 && Emptied(packages, plan.edits.deleted[0])
    && !HasPath(plan.packages, plan.edits.deleted[0])
  }

  /**
   * Where every data table is empty or holds a text of a recipe, and some are empty, the deleted path is never
   * planned, whatever the seed, the wording and the phase.
   */
  lemma NeverPlanned(packages: seq<Package>, phase: Phase, inputs: Inputs, q: nat)
    requires OwnPaths(packages, inputs.root) && Finish(packages, phase, inputs).Some?
    requires forall p | 0 <= p < |packages| :: Undrawable(packages[p])
    requires q < |packages| && EmptyTable(packages[q])
    ensures Unplanned(packages, Finish(packages, phase, inputs).value)
  {
    FinishIs(packages, phase, inputs);
    BeforeGrown(packages, phase, inputs);
    NothingDeleted(packages, phase, inputs);
    var (some, edits) := BeforeDeletion(packages, phase, inputs);
    var value := AfterTexts(SettleAll(packages, phase), EditSeed(inputs.seed));
    EmptyIsDeletable(packages, phase, inputs, q);
    if |some| > |packages| { ProbeNamed(packages, phase, inputs); }
    OnlyEmptyDeletable(packages, some, inputs.root, edits.packages, Pick(Deletables(some, edits.packages), value));
    GrownPaths(packages, some, inputs.root);
    DrawnIsPlanned(some, edits, value, phase, inputs);
    DrawnEmptied(packages, some, edits.packages, value, inputs);
    DeletedIsPlanned(packages, phase, inputs);
  }

  /** The path is all that is recorded as deleted, and no package of the plan has it. */
  ghost predicate DeletesUnplanned(plan: Plan, path: string) {
    plan.edits.deleted == [path] && !HasPath(plan.packages, path)
  }

  /** A corpus with one data table, an emptied one: both phases record its path, and plan no package of it. */
  lemma EmptiedIsDeleted(packages: seq<Package>, q: nat, phase: Phase, inputs: Inputs)
    requires OwnPaths(packages, inputs.root) && WellMadeAll(packages)
    requires q < |packages| && EmptyTable(packages[q])
    requires forall p | 0 <= p < |packages| && p != q :: !packages[p].kind.DataTable?
    ensures Finish(packages, phase, inputs).Some?
    ensures DeletesUnplanned(Finish(packages, phase, inputs).value, packages[q].path)
  {
    CorpusWhole.FinishSucceeds(packages, phase, inputs);
    var plan := Finish(packages, phase, inputs).value;
    NeverPlanned(packages, phase, inputs, q);
    OnlyPath(packages, q, plan);
  }

  lemma OnlyPath(packages: seq<Package>, q: nat, plan: Plan)
    requires q < |packages| && forall p | 0 <= p < |packages| && p != q :: !packages[p].kind.DataTable?
    requires Unplanned(packages, plan)
    ensures DeletesUnplanned(plan, packages[q].path)
  {
  }
}
