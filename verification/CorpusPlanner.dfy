/** `editPlan` as it runs, proved against `EditPlan`, and why it never throws on planned texts. */
module CorpusPlanner {
  import opened CorpusDraws
  import opened CorpusPlan
  import opened CorpusEdits

  class Planner {
    var packages: seq<Package>
    var edits: Edits

    constructor (packages: seq<Package>, edits: Edits)
      ensures this.packages == packages && this.edits == edits
    {
      this.packages, this.edits := packages, edits;
    }

    /** Gives a small plan a probe with the missing candidates. */
    method AddProbe(random: Draws, inputs: Inputs) returns (places: seq<Place>)
      modifies this`packages, random
      ensures packages == Probed(old(packages), inputs.root, inputs.seed, old(random.value), inputs.wording)
      ensures places == ProbedPlaces(old(packages)) && random.value == AfterProbe(old(packages), old(random.value))
    {
      var found := |Candidates(packages)|;
      places := ProbedPlaces(packages);
      if found < 3 {
        var probe := MakeEditProbe(random, found, inputs);
        packages := packages + [probe];
      }
    }

    method RegisterEdit(kind: string, at: Place, value: string)
      requires InPlan(packages, at)
      modifies this`edits
      ensures edits == Register(old(edits), kind, packages[at.owner], At(packages, at), value)
    {
      var owner := packages[at.owner];
      edits := edits.(operations := edits.operations +
                        [Operation(kind, owner.path + ":" + At(packages, at).key, value)]);
      if owner.path !in edits.packages {
        edits := edits.(packages := edits.packages + [owner.path]);
      }
    }

    /** The three text edits: recorded in both phases, carried out in the later one; `false` is a throw. */
    method EditTexts(e: TextEdits, phase: Phase) returns (ok: bool)
      requires Tokened(packages, e)
      modifies this
      ensures edits == RegisterTexts(old(packages), e, old(edits))
      ensures ok == (phase.After? ==> Marked(old(packages), e))
      ensures ok ==> packages == if phase.After? then ApplyTexts(old(packages), e) else old(packages)
    {
      var source := "Reef " + TokenAt(packages, e.source);
      var po := "Import " + TokenAt(packages, e.po);
      var archive := "Archiv " + TokenAt(packages, e.archive);
      RegisterEdit("source", e.source, source);
      RegisterEdit("po", e.po, po);
      RegisterEdit("archive", e.archive, archive);
      if phase.Initial? {
        return true;
      }
      packages := Replace(packages, e.source, EditSource(At(packages, e.source), source));
      if e.culture !in At(packages, e.po).marks {
        return false;
      }
      packages := Replace(packages, e.po, EditPo(At(packages, e.po), e.culture, po));
      if e.culture !in At(packages, e.archive).marks {
        return false;
      }
      packages := Replace(packages, e.archive, EditArchive(At(packages, e.archive), e.culture, archive));
      ok := true;
    }

    /** The deleted package: drawn, or made when no package can be deleted. */
    method DeletePackage(random: Draws, inputs: Inputs, phase: Phase) returns (path: string)
      modifies this`packages, random
      ensures var d := Deletion(old(packages), edits.packages, inputs.root, inputs.seed, old(random.value),
                                inputs.wording);
              path == d.0[d.1].path && packages == if phase.After? then DeleteAt(d.0, d.1) else d.0
      ensures random.value == AfterDeletion(old(packages), edits.packages, old(random.value))
    {
      var found := Deletables(packages, edits.packages);
      var p: nat := |packages|;
      if found == [] {
        random.value := Next(random.value);
        var probe := MakeDeleteProbe(random, inputs);
        packages := packages + [probe];
      } else {
        var k := random.Integer(0, |found| - 1);
        p := found[k];
        assert p in found;
      }
      path := packages[p].path;
      if phase.After? {
        packages := DeleteAt(packages, p);
      }
    }

    /** `editPlan`; `false` is its throw. */
    method EditPlan(random: Draws, inputs: Inputs, phase: Phase) returns (ok: bool)
      modifies this, random
      ensures var r := CorpusEdits.EditPlan(old(packages), old(edits), old(random.value), phase, inputs);
              ok == r.Some? && (ok ==> Plan(packages, edits) == r.value)
    {
      var e := DrawTexts(random, inputs);
      if !Tokened(packages, e) {
        return false;
      }
      ok := EditDrawn(e, random, inputs, phase);
    }

    /** From the drawn texts on. */
    method EditDrawn(e: TextEdits, random: Draws, inputs: Inputs, phase: Phase) returns (ok: bool)
      requires Tokened(packages, e)
      modifies this, random
      ensures ok == (phase.After? ==> Marked(old(packages), e))
      ensures ok ==>
        Plan(packages, edits) == EditRest(if phase.After? then ApplyTexts(old(packages), e) else old(packages),
                                          RegisterTexts(old(packages), e, old(edits)), old(random.value), phase, inputs)
    {
      ok := EditTexts(e, phase);
      if ok {
        EditOthers(random, inputs, phase);
      }
    }

    method DrawTexts(random: Draws, inputs: Inputs) returns (e: TextEdits)
      modifies this`packages, random
      ensures packages == Probed(old(packages), inputs.root, inputs.seed, old(random.value), inputs.wording)
      ensures e == DrawnTexts(old(packages), old(random.value))
      ensures random.value == AfterTexts(old(packages), old(random.value))
    {
      var places := AddProbe(random, inputs);
      var order := new Place[|places|](i requires 0 <= i < |places| => places[i]);
      assert order[..] == places;
      random.Shuffle(order);
      var k := random.Integer(0, 2);
      e := TextEdits(order[0], order[1], order[2], EDIT_CULTURES[k]);
    }

    /** The deleted and the added package. */
    method EditOthers(random: Draws, inputs: Inputs, phase: Phase)
      modifies this, random
      ensures Plan(packages, edits) == EditRest(old(packages), old(edits), old(random.value), phase, inputs)
    {
      var path := DeletePackage(random, inputs, phase);
      var added := AddedPackage(inputs.root, inputs.seed, random.value, inputs.wording);
      var kind := AddedKind(random.value);
      edits := edits.(deleted := edits.deleted + [path],
                      operations := edits.operations + [Operation("delete_package", path, "")]);
      edits := edits.(packages := edits.packages + [added.path],
                      operations := edits.operations + [Operation("add_package", added.path, KindName(kind))]);
      assert edits.operations == old(edits).operations + [Operation("delete_package", path, ""),
                                                          Operation("add_package", added.path, KindName(kind))];
      if phase.After? {
        packages := packages + [added];
      }
      edits := edits.(changedFiles := ChangedFiles(edits, inputs.target));
    }
  }

  /** Four draws, one for each part. */
  method DrawGuid(random: Draws) returns (s: string)
    modifies random
    ensures s == Guid(old(random.value)) && random.value == AfterGuid(old(random.value))
  {
    FourDraws(random.value);
    var a := random.Integer(0, 0xFF_FFFF);
    var b := random.Integer(0, 0xFF_FFFF);
    var c := random.Integer(0, 0xFF_FFFF);
    var d := random.Integer(0, 0xFF_FFFF);
    s := Padded(UpperHex(a), 8) + Padded(UpperHex(b), 8) + Padded(UpperHex(c), 8) + Padded(UpperHex(d), 8);
  }

  method MakeEditProbe(random: Draws, found: nat, inputs: Inputs) returns (probe: Package)
    requires found < 3
    modifies random
    ensures probe == EditProbe(found, inputs.root, inputs.seed, old(random.value), inputs.wording)
    ensures random.value == AfterEditProbe(found, old(random.value))
  {
    var namespace := DrawGuid(random);
    var guid := DrawGuid(random);
    var lines := DrawProbeLines(random, found, inputs.seed, namespace, inputs.wording);
    probe := Package(DataTable, "EditProbe", "Edits", inputs.root + "/Edits/EditProbe", namespace, guid,
                     "Corpus.EditProbe", lines);
  }

  method MakeDeleteProbe(random: Draws, inputs: Inputs) returns (probe: Package)
    modifies random
    ensures probe == DeleteProbe(inputs.root, inputs.seed, old(random.value), inputs.wording)
    ensures random.value == Next(Next(AfterGuid(AfterGuid(old(random.value)))))
  {
    var namespace := DrawGuid(random);
    var guid := DrawGuid(random);
    var line := Placed(DrawnBackground(1_050_000, inputs.seed, DataTableCell, random.value, inputs.wording), namespace);
    random.value := Next(Next(random.value));
    probe := Package(DataTable, "DeleteProbe", "Edits", inputs.root + "/Edits/DeleteProbe", namespace, guid,
                     "Corpus.DeleteProbe", [line]);
  }

  method DrawProbeLine(random: Draws, i: nat, seed: nat, namespace: string, w: Wording) returns (line: Line)
    requires i < 3
    modifies random
    ensures random.value == Next(old(random.value))
    ensures [line] + ProbeLines(i + 1, seed, namespace, random.value, w) ==
            ProbeLines(i, seed, namespace, old(random.value), w)
  {
    line := Placed(PlainBackground(1_000_000 + i, seed, DataTableCell, random.value, w), namespace);
    random.value := Next(random.value);
  }

  /** The probe's texts, one draw each. */
  method DrawProbeLines(random: Draws, i: nat, seed: nat, namespace: string, w: Wording) returns (lines: seq<Line>)
    requires i <= 3
    modifies random
    ensures lines == ProbeLines(i, seed, namespace, old(random.value), w)
    ensures random.value == Advance(old(random.value), 3 - i)
    decreases 3 - i
  {
    if i == 3 {
      return [];
    }
    var line := DrawProbeLine(random, i, seed, namespace, w);
    var rest := DrawProbeLines(random, i + 1, seed, namespace, w);
    lines := [line] + rest;
  }

  lemma FourDraws(value: nat)
    ensures AfterGuid(value) == Next(Next(Next(Next(value))))
  {
    assert Advance(value, 4) == Advance(Next(value), 3) == Advance(Next(Next(value)), 2);
    assert Advance(Next(Next(Next(value))), 1) == Next(Next(Next(Next(value))));
  }

  // ---------------------------------------------------------------------------------------------
  // No throw

  ghost predicate GoodPlace(packages: seq<Package>, at: Place) {
    InPlan(packages, at) && At(packages, at).name == BACKGROUND
  }

  ghost predicate GoodPlaces(packages: seq<Package>, places: seq<Place>) {
    && (forall i | 0 <= i < |places| :: GoodPlace(packages, places[i]))
    && forall i, j | 0 <= i < j < |places| :: places[i] != places[j]
  }

  lemma {:induction false} CandidatesInGood(owner: Package, p: nat, n: nat)
    requires n <= |owner.lines|
    ensures forall i | 0 <= i < |CandidatesIn(owner, p, n)| ::
      var at := CandidatesIn(owner, p, n)[i]; at.owner == p && at.line < n && owner.lines[at.line].name == BACKGROUND
    ensures forall i, j | 0 <= i < j < |CandidatesIn(owner, p, n)| ::
      CandidatesIn(owner, p, n)[i] != CandidatesIn(owner, p, n)[j]
  {
    if n > 0 { CandidatesInGood(owner, p, n - 1); }
  }

  lemma {:induction false} CandidatesGood(packages: seq<Package>)
    ensures GoodPlaces(packages, Candidates(packages))
  {
    if packages != [] {
      var n := |packages| - 1;
      CandidatesGood(packages[..n]);
      CandidatesInGood(packages[n], n, |packages[n].lines|);
      var a, b := Candidates(packages[..n]), CandidatesIn(packages[n], n, |packages[n].lines|);
      forall i | 0 <= i < |a| ensures GoodPlace(packages, a[i]) && a[i].owner < n {
        assert GoodPlace(packages[..n], a[i]);
      }
    }
  }

  lemma {:induction false} ProbeLinesGood(from: nat, seed: nat, namespace: string, value: nat, w: Wording)
    requires from <= 3
    ensures forall l | 0 <= l < 3 - from ::
      var line := ProbeLines(from, seed, namespace, value, w)[l]; line.name == BACKGROUND && WellMade(line)
    decreases 3 - from
  {
    if from < 3 { ProbeLinesGood(from + 1, seed, namespace, Next(value), w); }
  }

  lemma PlacesGood(packages: seq<Package>, value: nat, inputs: Inputs)
    ensures GoodPlaces(Probed(packages, inputs.root, inputs.seed, value, inputs.wording), ProbedPlaces(packages))
  {
    var found := Candidates(packages);
    CandidatesGood(packages);
    if |found| < 3 {
      var probe := EditProbe(|found|, inputs.root, inputs.seed, value, inputs.wording);
      ProbeLinesGood(|found|, inputs.seed, Guid(value), AfterGuid(AfterGuid(value)), inputs.wording);
      NewPlacesGood(packages, found, probe);
    }
  }

  lemma ProbedWellMade(packages: seq<Package>, value: nat, inputs: Inputs)
    requires WellMadeAll(packages)
    ensures WellMadeAll(Probed(packages, inputs.root, inputs.seed, value, inputs.wording))
  {
    var found := Candidates(packages);
    if |found| < 3 {
      ProbeLinesGood(|found|, inputs.seed, Guid(value), AfterGuid(AfterGuid(value)), inputs.wording);
    }
  }

  lemma NewPlacesGood(packages: seq<Package>, found: seq<Place>, probe: Package)
    requires GoodPlaces(packages, found) && |found| < 3 && |probe.lines| == 3 - |found|
    requires forall l | 0 <= l < |probe.lines| :: probe.lines[l].name == BACKGROUND
    ensures GoodPlaces(packages + [probe], found + seq(3 - |found|, k requires 0 <= k < 3 => Place(|packages|, k)))
  {
    var some := packages + [probe];
    var places := found + seq(3 - |found|, k requires 0 <= k < 3 => Place(|packages|, k));
    forall i | 0 <= i < |places|
      ensures GoodPlace(some, places[i]) && (places[i].owner == |packages| <==> i >= |found|)
    {
      if i < |found| { assert GoodPlace(packages, found[i]); }
    }
  }

  lemma DistinctCount(places: seq<Place>, x: Place)
    requires forall i, j | 0 <= i < j < |places| :: places[i] != places[j]
    ensures multiset(places)[x] <= 1
  {
    if places != [] {
      var n := |places| - 1;
      DistinctCount(places[..n], x);
      assert places == places[..n] + [places[n]];
      if x == places[n] {
        assert x !in places[..n];
      }
    }
  }

  lemma CountTwice(places: seq<Place>, i: nat, j: nat)
    requires i < j < |places| && places[i] == places[j]
    ensures multiset(places)[places[i]] >= 2
  {
    var a, b := places[..j], places[j..];
    assert places == a + b;
    assert a[i] == places[i] && b[0] == places[j];
    assert places[i] in multiset(a) && places[j] in multiset(b);
  }

  lemma ShuffleKeepsGood(packages: seq<Package>, places: seq<Place>, value: nat)
    requires GoodPlaces(packages, places)
    ensures GoodPlaces(packages, Shuffled(places, value))
  {
    var order := Shuffled(places, value);
    ShufflePermutes(places, value);
    forall i | 0 <= i < |order| ensures GoodPlace(packages, order[i]) {
      assert order[i] in multiset(places);
    }
    forall i, j | 0 <= i < j < |order| ensures order[i] != order[j] {
      if order[i] == order[j] {
        CountTwice(order, i, j);
        DistinctCount(places, order[i]);
      }
    }
  }

  /** The drawn texts always are three different background texts of the plan. */
  lemma DrawnTextsGood(packages: seq<Package>, value: nat, inputs: Inputs)
    ensures var some := Probed(packages, inputs.root, inputs.seed, value, inputs.wording);
            var e := DrawnTexts(packages, value);
            && GoodPlace(some, e.source) && GoodPlace(some, e.po) && GoodPlace(some, e.archive)
            && e.source != e.po && e.source != e.archive && e.po != e.archive && e.culture in EDIT_CULTURES
  {
    var places := ProbedPlaces(packages);
    var order := Shuffled(places, AfterProbe(packages, value));
    PlacesGood(packages, value, inputs);
    ShuffleKeepsGood(Probed(packages, inputs.root, inputs.seed, value, inputs.wording), places,
                     AfterProbe(packages, value));
    assert order[0] != order[1] && order[0] != order[2] && order[1] != order[2];
  }

  /** On well-made packages the edit plan never throws, in either phase. */
  lemma EditPlanSucceeds(packages: seq<Package>, edits: Edits, value: nat, phase: Phase, inputs: Inputs)
    requires WellMadeAll(packages)
    ensures CorpusEdits.EditPlan(packages, edits, value, phase, inputs).Some?
  {
    var some := Probed(packages, inputs.root, inputs.seed, value, inputs.wording);
    var e := DrawnTexts(packages, value);
    DrawnTextsGood(packages, value, inputs);
    ProbedWellMade(packages, value, inputs);
    assert e.culture in CULTURES;
    assert WellMade(At(some, e.source)) && WellMade(At(some, e.po)) && WellMade(At(some, e.archive));
  }
}
