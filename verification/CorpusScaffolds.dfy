/**
 * Between placement and edits: every package's texts are shuffled, every blueprint variable gets the empty
 * category text the editor generates, and blueprint and widget texts are signalled as evidence only.
 */
module CorpusScaffolds {
  import opened Basics
  import opened CorpusDraws
  import opened CorpusPlan
  import opened CorpusEdits
  import opened CorpusPlacement

  const EVIDENCE: string := "evidence_only"

  predicate Variable(line: Line) {
    line.kind.BlueprintVariable?
  }

  function Variables(lines: seq<Line>): seq<Line> {
    Filter(lines, Variable)
  }

  /** The category text of variable number i, with the marks of the recipe's own scaffold. */
  function EmptyCategory(line: Line, i: nat, marks: map<string, Mark>): Line {
    line.(name := "blueprint-empty-category@" + line.key, mode := Scaffold,
          field := "NewVariables[" + Decimal(i) + "].Category", source := "", manifestSource := "", key := "",
          namespace := "", gathered := false, signals := [], marks := marks)
  }

  function EmptyCategories(variables: seq<Line>, marks: map<string, Mark>): (r: seq<Line>)
    ensures |r| == |variables|
  {
    seq(|variables|, i requires 0 <= i < |variables| => EmptyCategory(variables[i], i, marks))
  }

  function Signalled(line: Line): Line {
    if !line.mode.Scaffold? && EVIDENCE !in line.signals then line.(signals := [EVIDENCE] + line.signals) else line
  }

  function Signals(owner: Package, lines: seq<Line>): seq<Line> {
    if owner.kind.Blueprint? || owner.kind.WidgetBlueprint? then MapLines(lines, Signalled) else lines
  }

  /** One package, its texts shuffled from generator state `value`. */
  function Dressed(owner: Package, value: nat, marks: map<string, Mark>): Package {
    var lines := Shuffled(owner.lines, value);
    owner.(lines := Signals(owner, lines + EmptyCategories(Variables(lines), marks)))
  }

  function AfterDressing(packages: seq<Package>, value: nat): nat {
    if packages == [] then value
    else AfterShuffle(|packages[|packages| - 1].lines|, AfterDressing(packages[..|packages| - 1], value))
  }

  function DressedAll(packages: seq<Package>, value: nat, marks: map<string, Mark>): (r: seq<Package>)
    ensures |r| == |packages|
  {
    if packages == [] then []
    else
      var init := packages[..|packages| - 1];
      DressedAll(init, value, marks) + [Dressed(packages[|packages| - 1], AfterDressing(init, value), marks)]
  }

  /** The first scaffold among the recipes' texts, whose marks every generated category takes over. */
  function FirstScaffold(packages: seq<Package>): Option<Line> {
    if packages == [] then None
    else if FirstScaffold(packages[..|packages| - 1]).Some? then FirstScaffold(packages[..|packages| - 1])
    else FirstIn(packages[|packages| - 1].lines)
  }

  function FirstIn(lines: seq<Line>): Option<Line> {
    if lines == [] then None else if lines[0].mode.Scaffold? then Some(lines[0]) else FirstIn(lines[1..])
  }

  function VariableCount(packages: seq<Package>): nat {
    if packages == [] then 0
    else VariableCount(packages[..|packages| - 1]) + Count(packages[|packages| - 1].lines, Variable)
  }

  // ---------------------------------------------------------------------------------------------
  // The loops

  lemma {:induction false} FilterCounts<S>(s: seq<S>, keep: S -> bool)
    ensures |Filter(s, keep)| == Count(s, keep)
  {
    if s != [] {
      FilterCounts(s[..|s| - 1], keep);
    }
  }

  lemma ShuffledVariables(lines: seq<Line>, value: nat)
    ensures |Variables(Shuffled(lines, value))| == Count(lines, Variable)
  {
    FilterCounts(Shuffled(lines, value), Variable);
    ShufflePermutes(lines, value);
    CountPermutation(Shuffled(lines, value), lines, Variable);
  }

  /** The category texts of one package; without a recipe scaffold the first of them throws. */
  method AddCategories(lines: seq<Line>, recipe: Option<Line>) returns (r: Option<seq<Line>>)
    ensures recipe.None? && Variables(lines) != [] ==> r.None?
    ensures recipe.None? && Variables(lines) == [] ==> r == Some(lines)
    ensures recipe.Some? ==> r == Some(lines + EmptyCategories(Variables(lines), recipe.value.marks))
  {
    var variables := Variables(lines);
    var all := lines;
    assert lines + [] == lines;
    for i := 0 to |variables|
      invariant i > 0 ==> recipe.Some?
      invariant recipe.Some? ==> all == lines + EmptyCategories(variables, recipe.value.marks)[..i]
      invariant i == 0 ==> all == lines
    {
      if recipe.None? {
        return None;
      }
      ghost var more := EmptyCategories(variables, recipe.value.marks);
      assert more[..i + 1] == more[..i] + [more[i]];
      all := all + [EmptyCategory(variables[i], i, recipe.value.marks)];
      assert lines + more[..i + 1] == lines + more[..i] + [more[i]];
    }
    if recipe.Some? {
      ghost var more := EmptyCategories(variables, recipe.value.marks);
      assert more[..|variables|] == more;
    }
    r := Some(all);
  }

  method ShuffleOwn(owner: Package, random: Draws) returns (lines: seq<Line>)
    modifies random
    ensures lines == Shuffled(owner.lines, old(random.value))
    ensures random.value == AfterShuffle(|owner.lines|, old(random.value))
  {
    var order := new Line[|owner.lines|](i requires 0 <= i < |owner.lines| => owner.lines[i]);
    assert order[..] == owner.lines;
    random.Shuffle(order);
    lines := order[..];
  }

  /** The marks of a recipe scaffold; none at all where no text needs them. */
  function MarksOf(recipe: Option<Line>): map<string, Mark> {
    if recipe.Some? then recipe.value.marks else map[]
  }

  /** One package of the loop. */
  method DressPackage(owner: Package, recipe: Option<Line>, random: Draws) returns (r: Option<Package>)
    modifies random
    ensures r == if recipe.None? && Count(owner.lines, Variable) > 0 then None
      else Some(Dressed(owner, old(random.value), MarksOf(recipe)))
    ensures random.value == AfterShuffle(|owner.lines|, old(random.value))
  {
    ShuffledVariables(owner.lines, random.value);
    var lines := ShuffleOwn(owner, random);
    var all := AddCategories(lines, recipe);
    if all.None? {
      return None;
    }
    assert lines + [] == lines;
    r := Some(owner.(lines := Signals(owner, all.value)));
  }

  lemma DressedSnoc(packages: seq<Package>, i: nat, value: nat, marks: map<string, Mark>)
    requires i < |packages|
    ensures DressedAll(packages[..i + 1], value, marks) ==
      DressedAll(packages[..i], value, marks) + [Dressed(packages[i], AfterDressing(packages[..i], value), marks)]
    ensures AfterDressing(packages[..i + 1], value) ==
            AfterShuffle(|packages[i].lines|, AfterDressing(packages[..i], value))
    ensures VariableCount(packages[..i + 1]) == VariableCount(packages[..i]) + Count(packages[i].lines, Variable)
  {
    assert packages[..i + 1][..i] == packages[..i];
  }

  lemma {:induction false} VariablesGrow(packages: seq<Package>, i: nat)
    requires i <= |packages|
    ensures VariableCount(packages[..i]) <= VariableCount(packages)
    decreases |packages|
  {
    if i < |packages| {
      var init := packages[..|packages| - 1];
      VariablesGrow(init, i);
      assert init[..i] == packages[..i];
    } else {
      assert packages[..i] == packages;
    }
  }

  /** All packages; it throws exactly when a variable needs a category and no recipe has one. */
  method DressCorpus(packages: seq<Package>, recipe: Option<Line>, random: Draws) returns (r: Option<seq<Package>>)
    modifies random
    ensures r == if recipe.None? && VariableCount(packages) > 0 then None
      else Some(DressedAll(packages, old(random.value), MarksOf(recipe)))
  {
    var all: seq<Package> := [];
    ghost var start, marks := random.value, MarksOf(recipe);
    for i := 0 to |packages|
      invariant all == DressedAll(packages[..i], start, marks)
      invariant random.value == AfterDressing(packages[..i], start)
      invariant recipe.None? ==> VariableCount(packages[..i]) == 0
    {
      DressedSnoc(packages, i, start, marks);
      VariablesGrow(packages, i + 1);
      var dressed := DressPackage(packages[i], recipe, random);
      if dressed.None? {
        return None;
      }
      all := all + [dressed.value];
    }
    Whole(packages);
    r := Some(all);
  }

  lemma Whole(packages: seq<Package>)
    ensures packages[..|packages|] == packages
  {
  }

  // ---------------------------------------------------------------------------------------------
  // What it keeps

  lemma SignalledKeeps(line: Line)
    ensures WellMade(Signalled(line)) <==> WellMade(line)
    ensures Signalled(line).mode == line.mode
  {
  }

  lemma CategoryWellMade(line: Line, i: nat, marks: map<string, Mark>)
    ensures WellMade(EmptyCategory(line, i, marks)) && EmptyCategory(line, i, marks).mode.Scaffold?
  {
    assert EmptyCategory(line, i, marks).name[1] == 'l' && BACKGROUND[1] == 'a';
  }

  ghost predicate WellMadeLines(lines: seq<Line>) {
    forall l | 0 <= l < |lines| :: WellMade(lines[l])
  }

  lemma DressedWellMade(owner: Package, value: nat, marks: map<string, Mark>)
    requires WellMadeLines(owner.lines)
    ensures WellMadeLines(Dressed(owner, value, marks).lines)
  {
    var lines := Shuffled(owner.lines, value);
    ShufflePermutes(owner.lines, value);
    forall l | 0 <= l < |lines|
      ensures WellMade(lines[l])
    {
      assert lines[l] in multiset(owner.lines);
    }
    var variables := Variables(lines);
    var all := lines + EmptyCategories(variables, marks);
    forall l | 0 <= l < |all|
      ensures WellMade(all[l]) && WellMade(Signalled(all[l]))
    {
      if l >= |lines| {
        CategoryWellMade(variables[l - |lines|], l - |lines|, marks);
      }
      SignalledKeeps(all[l]);
    }
  }

  /** Dressing keeps a corpus well made: no generated category passes for a background text. */
  lemma {:induction false} DressingKeepsWellMade(packages: seq<Package>, value: nat, marks: map<string, Mark>)
    requires WellMadeAll(packages)
    ensures WellMadeAll(DressedAll(packages, value, marks))
  {
    if packages != [] {
      var init, last := packages[..|packages| - 1], packages[|packages| - 1];
      DressingKeepsWellMade(init, value, marks);
      DressedWellMade(last, AfterDressing(init, value), marks);
    }
  }

  /** One category text for each variable, and nothing else. */
  lemma {:induction false} DressingCounts(packages: seq<Package>, value: nat, marks: map<string, Mark>)
    ensures LineCount(DressedAll(packages, value, marks)) == LineCount(packages) + VariableCount(packages)
  {
    if packages != [] {
      var init, last := packages[..|packages| - 1], packages[|packages| - 1];
      DressingCounts(init, value, marks);
      var v := AfterDressing(init, value);
      ShuffledVariables(last.lines, v);
      var all := DressedAll(packages, value, marks);
      assert all[..|all| - 1] == DressedAll(init, value, marks);
    }
  }

  ghost predicate NoScaffolds(lines: seq<Line>) {
    forall l | 0 <= l < |lines| :: !lines[l].mode.Scaffold?
  }

  lemma {:induction false} FilterAll(lines: seq<Line>)
    requires NoScaffolds(lines)
    ensures Unscaffolded(lines) == lines
  {
    if lines != [] {
      FilterAll(lines[..|lines| - 1]);
    }
  }

  lemma {:induction false} FilterTail(lines: seq<Line>, more: seq<Line>)
    requires forall l | 0 <= l < |more| :: more[l].mode.Scaffold?
    ensures Unscaffolded(lines + more) == Unscaffolded(lines)
    decreases |more|
  {
    if more == [] {
      assert lines + more == lines;
    } else {
      FilterTail(lines, more[..|more| - 1]);
      var all := lines + more;
      assert all[..|all| - 1] == lines + more[..|more| - 1];
    }
  }

  /**
   * The texts of a package without scaffolds are all still there once, in shuffled order, and signalled in
   * blueprints and widgets; all that is new are scaffolds.
   */
  lemma DressedTexts(owner: Package, value: nat, marks: map<string, Mark>)
    requires NoScaffolds(owner.lines)
    ensures Unscaffolded(Dressed(owner, value, marks).lines) == Signals(owner, Shuffled(owner.lines, value))
    ensures multiset(Shuffled(owner.lines, value)) == multiset(owner.lines)
  {
    var lines := Shuffled(owner.lines, value);
    ShufflePermutes(owner.lines, value);
    forall l | 0 <= l < |lines|
      ensures !lines[l].mode.Scaffold?
    {
      assert lines[l] in multiset(owner.lines);
    }
    var variables := Variables(lines);
    var more := EmptyCategories(variables, marks);
    forall l | 0 <= l < |more|
      ensures more[l].mode.Scaffold?
    {
      CategoryWellMade(variables[l], l, marks);
    }
    SignalsSplit(owner, lines, more);
    SignalsModes(owner, lines);
    SignalsModes(owner, more);
    FilterTail(Signals(owner, lines), Signals(owner, more));
    FilterAll(Signals(owner, lines));
  }

  lemma SignalsSplit(owner: Package, a: seq<Line>, b: seq<Line>)
    ensures Signals(owner, a + b) == Signals(owner, a) + Signals(owner, b)
  {
  }

  lemma SignalsModes(owner: Package, lines: seq<Line>)
    ensures |Signals(owner, lines)| == |lines|
    ensures forall l | 0 <= l < |lines| :: Signals(owner, lines)[l].mode == lines[l].mode
  {
  }
}
