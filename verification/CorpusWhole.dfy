/**
 * Placement and edits together: whatever is placed from well-made texts, both phases of the plan come
 * out, and in lockstep.
 */
module CorpusWhole {
  import opened Basics
  import opened CorpusDraws
  import opened CorpusPlan
  import opened CorpusEdits
  import opened CorpusLockstep
  import CorpusPlanner
  import opened CorpusPlacement
  import opened CorpusScaffolds

  ghost predicate Holds(lines: seq<Line>, core: Line) {
    exists i :: 0 <= i < |lines| && Core(lines[i]) == core
  }

  lemma HoldsSnoc(lines: seq<Line>, x: Line, core: Line)
    ensures Holds(lines + [x], core) <==> Holds(lines, core) || Core(x) == core
  {
    var all := lines + [x];
    assert forall i | 0 <= i < |lines| :: all[i] == lines[i];
    assert all[|lines|] == x;
    if Holds(lines, core) {
      var i :| 0 <= i < |lines| && Core(lines[i]) == core;
      assert Core(all[i]) == core;
    }
  }

  /** A copy is there exactly when some text is that one. */
  lemma {:induction false} CopiesFound(lines: seq<Line>, core: Line)
    ensures Copies(lines, core) > 0 <==> Holds(lines, core)
  {
    if lines != [] {
      var init, last := lines[..|lines| - 1], lines[|lines| - 1];
      assert lines == init + [last];
      CopiesFound(init, core);
      HoldsSnoc(init, last, core);
      CountSnoc(init, last, IsCore(core));
    }
  }

  lemma {:induction false} PlanCopiesFound(packages: seq<Package>, p: nat, core: Line)
    requires p < |packages| && Holds(packages[p].lines, core)
    ensures PlanCopies(packages, core) > 0
  {
    var init, last := packages[..|packages| - 1], packages[|packages| - 1];
    assert packages == init + [last];
    PlanCopiesSnoc(init, last, core);
    if p < |init| {
      PlanCopiesFound(init, p, core);
    } else {
      CopiesFound(last.lines, core);
    }
  }

  lemma {:induction false} FilterFrom<S>(s: seq<S>, keep: S -> bool, x: S)
    requires x in Filter(s, keep)
    ensures x in s
  {
    if s != [] {
      var n := |s| - 1;
      assert s == s[..n] + [s[n]];
      if x in Filter(s[..n], keep) {
        FilterFrom(s[..n], keep, x);
      }
    }
  }

  /** A planned copy comes from a text of some package. */
  lemma {:induction false} PlannedFrom(packages: seq<Package>, core: Line) returns (p: nat, l: nat)
    requires PlannedCopies(packages, core) > 0
    ensures p < |packages| && l < |packages[p].lines| && Core(packages[p].lines[l]) == core
  {
    var n := |packages| - 1;
    var lines := Unscaffolded(packages[n].lines);
    if Copies(lines, core) > 0 {
      CopiesFound(lines, core);
      var i :| 0 <= i < |lines| && Core(lines[i]) == core;
      FilterFrom(packages[n].lines, (line: Line) => !line.mode.Scaffold?, lines[i]);
      var j :| 0 <= j < |packages[n].lines| && packages[n].lines[j] == lines[i];
      p, l := n, j;
    } else {
      p, l := PlannedFrom(packages[..n], core);
    }
  }

  /** Being well made does not depend on the place. */
  lemma CoreDecides(a: Line, b: Line)
    requires Core(a) == Core(b)
    ensures WellMade(a) <==> WellMade(b)
  {
    assert Core(a).name == a.name && Core(a).token == a.token && Core(a).marks == a.marks;
    assert Core(b).name == b.name && Core(b).token == b.token && Core(b).marks == b.marks;
  }

  /** What conserves the texts conserves that they are well made. */
  lemma PlacedWellMade(placed: seq<Package>, original: seq<Package>, background: seq<Line>)
    requires WellMadeAll(original) && forall k | 0 <= k < |background| :: WellMade(background[k])
    requires Conserved(original, placed, background)
    ensures WellMadeAll(placed)
  {
    forall p, l | 0 <= p < |placed| && 0 <= l < |placed[p].lines|
      ensures WellMade(placed[p].lines[l])
    {
      var core := Core(placed[p].lines[l]);
      assert Holds(placed[p].lines, core);
      PlanCopiesFound(placed, p, core);
      if PlannedCopies(original, core) > 0 {
        var q, m := PlannedFrom(original, core);
        CoreDecides(placed[p].lines[l], original[q].lines[m]);
      } else {
        CopiesFound(background, core);
        var k :| 0 <= k < |background| && Core(background[k]) == core;
        CoreDecides(placed[p].lines[l], background[k]);
      }
    }
  }

  lemma SettleKeepsWellMade(packages: seq<Package>, phase: Phase)
    requires WellMadeAll(packages)
    ensures WellMadeAll(SettleAll(packages, phase))
  {
    var settled := SettleAll(packages, phase);
    forall p, l | 0 <= p < |settled| && 0 <= l < |settled[p].lines|
      ensures WellMade(settled[p].lines[l])
    {
      assert settled[p] == SettlePackage(packages[p], phase);
      assert WellMade(packages[p].lines[l]);
    }
  }

  /** Planning the edits of a well-made corpus never throws, in either phase. */
  lemma FinishSucceeds(packages: seq<Package>, phase: Phase, inputs: Inputs)
    requires WellMadeAll(packages)
    ensures Finish(packages, phase, inputs).Some?
  {
    SettleKeepsWellMade(packages, phase);
    CorpusPlanner.EditPlanSucceeds(SettleAll(packages, phase), SettleAllEdits(packages, NO_EDITS),
      EditSeed(inputs.seed), phase, inputs);
  }

  /** Both phases of a well-made corpus come out, record the same edits, and differ only where the record says. */
  lemma BothPhasesComeOut(packages: seq<Package>, inputs: Inputs)
    requires WellMadeAll(packages)
    ensures Finish(packages, Initial, inputs).Some? && Finish(packages, After, inputs).Some?
    ensures Lockstep(Finish(packages, Initial, inputs).value, Finish(packages, After, inputs).value)
  {
    FinishSucceeds(packages, Initial, inputs);
    FinishSucceeds(packages, After, inputs);
    PhasesInLockstep(packages, inputs);
  }

  /** The placed corpus of a seed. */
  function Placement(original: seq<Package>, lines: nat, inputs: Inputs): Packing {
    PlacedCorpus(original, lines, inputs.seed, inputs.root, inputs.seed % WORD, inputs.wording)
  }

  /** And the corpus the edits are planned for. */
  function Corpus(original: seq<Package>, lines: nat, inputs: Inputs): seq<Package> {
    var s := Placement(original, lines, inputs);
    DressedAll(s.packages, s.value, MarksOf(FirstScaffold(original)))
  }

  lemma PlacementWellMade(original: seq<Package>, lines: nat, inputs: Inputs)
    requires WellMadeAll(original)
    ensures WellMadeAll(Placement(original, lines, inputs).packages)
  {
    var start := inputs.seed % WORD;
    PlacementHolds(original, lines, inputs.seed, inputs.root, start, inputs.wording);
    BackgroundNumbered(Visible(original), BackgroundCount(original, lines), inputs.seed, start, inputs.wording);
    PlacedWellMade(Placement(original, lines, inputs).packages, original,
                   BackgroundOf(original, lines, inputs.seed, start, inputs.wording));
  }

  /**
   * The planner from the recipes' packages to the two plans, placed and dressed once: neither phase reads
   * which of them it is before the conflicts are settled. From well-made recipes the only throw there is
   * comes from a blueprint variable without a recipe scaffold to take its category's marks from.
   */
  method PlanPhases(original: seq<Package>, lines: nat, inputs: Inputs)
    returns (r: Option<(Plan, Plan)>, placed: seq<Package>)
    requires WellMadeAll(original)
    ensures placed == Placement(original, lines, inputs).packages
    ensures LineCount(placed) == (if lines > Visible(original) + 20 then lines else Visible(original) + 20)
    ensures |placed| >= |original| && placed[..|original|] == KeepAll(original)
    ensures WellMadeAll(placed) && WithinCapacities(placed, |original|, Placement(original, lines, inputs).capacities)
    ensures r.None? <==> FirstScaffold(original).None? && VariableCount(placed) > 0
    ensures r.Some? ==> Lockstep(r.value.0, r.value.1)
    ensures r.Some? ==> PlansOf(r.value, Corpus(original, lines, inputs), inputs)
  {
    var random := new Draws(inputs.seed);
    var placer, background := PlaceCorpus(original, lines, inputs.seed, inputs.root, random, inputs.wording);
    placed := placer.packages;
    PlacementWellMade(original, lines, inputs);
    ghost var value := random.value;
    var dressed := DressCorpus(placed, FirstScaffold(original), random);
    if dressed.None? {
      return None, placed;
    }
    DressingKeepsWellMade(placed, value, MarksOf(FirstScaffold(original)));
    BothPhasesComeOut(dressed.value, inputs);
    var initial, after := Finish(dressed.value, Initial, inputs), Finish(dressed.value, After, inputs);
    r := Some((initial.value, after.value));
  }

  /** The two plans of one corpus. */
  ghost predicate PlansOf(plans: (Plan, Plan), packages: seq<Package>, inputs: Inputs) {
    Finish(packages, Initial, inputs) == Some(plans.0) && Finish(packages, After, inputs) == Some(plans.1)
  }

  // ---------------------------------------------------------------------------------------------
  // Where the phases part

  /** Every candidate for an edit has a token and no culture at all. */
  ghost predicate Markless(packages: seq<Package>) {
    forall i | 0 <= i < |Candidates(packages)| ::
      && TokenedAt(packages, Candidates(packages)[i])
      && At(packages, Candidates(packages)[i]).marks == map[]
  }

  lemma DrawnFromCandidates(packages: seq<Package>, value: nat, inputs: Inputs)
    requires |Candidates(packages)| >= 3
    ensures Probed(packages, inputs.root, inputs.seed, value, inputs.wording) == packages
    ensures var e := DrawnTexts(packages, value);
      e.source in Candidates(packages) && e.po in Candidates(packages) && e.archive in Candidates(packages)
  {
    var places := Candidates(packages);
    var order := Shuffled(places, AfterProbe(packages, value));
    ShufflePermutes(places, AfterProbe(packages, value));
    assert order[0] in multiset(places) && order[1] in multiset(places) && order[2] in multiset(places);
  }

  lemma MarklessAt(packages: seq<Package>, at: Place)
    requires Markless(packages) && at in Candidates(packages)
    ensures TokenedAt(packages, at) && At(packages, at).marks == map[]
  {
  }

  /** Texts without cultures, which the planner never makes: the first phase plans them, the later one throws. */
  lemma OnlyTheLaterPhaseThrows(packages: seq<Package>, edits: Edits, value: nat, inputs: Inputs)
    requires |Candidates(packages)| >= 3 && Markless(packages)
    ensures EditPlan(packages, edits, value, Initial, inputs).Some?
    ensures EditPlan(packages, edits, value, After, inputs).None?
  {
    var e := DrawnTexts(packages, value);
    CorpusPlanner.DrawnTextsGood(packages, value, inputs);
    DrawnFromCandidates(packages, value, inputs);
    MarklessAt(packages, e.source);
    MarklessAt(packages, e.po);
    MarklessAt(packages, e.archive);
    EditPlanExactly(packages, edits, value, Initial, inputs);
    EditPlanExactly(packages, edits, value, After, inputs);
  }
}
