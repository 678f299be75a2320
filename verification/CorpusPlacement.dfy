/** Placement: movable and background texts are shuffled and packed into packages of drawn capacity. */
module CorpusPlacement {
  import opened Basics
  import opened CorpusDraws
  import opened CorpusPlan
  import opened CorpusEdits
  import CorpusPlanner

  // ---------------------------------------------------------------------------------------------
  // Counting

  function Count<S>(s: seq<S>, test: S -> bool): (n: nat) {
    if s == [] then 0 else Count(s[..|s| - 1], test) + (if test(s[|s| - 1]) then 1 else 0)
  }

  lemma CountSnoc<S>(s: seq<S>, x: S, test: S -> bool)
    ensures Count(s + [x], test) == Count(s, test) + (if test(x) then 1 else 0)
  {
    assert (s + [x])[..|s|] == s;
  }

  lemma {:induction false} CountConcat<S>(a: seq<S>, b: seq<S>, test: S -> bool)
    ensures Count(a + b, test) == Count(a, test) + Count(b, test)
  {
    if b == [] {
      assert a + b == a;
    } else {
      var n := |b| - 1;
      assert a + b == (a + b[..n]) + [b[n]];
      CountConcat(a, b[..n], test);
      CountSnoc(a + b[..n], b[n], test);
    }
  }

  lemma RemoveOne<S>(b: seq<S>, i: nat)
    requires i < |b|
    ensures multiset(b[..i] + b[i + 1..]) == multiset(b) - multiset{b[i]}
  {
    assert b == b[..i] + [b[i]] + b[i + 1..];
  }

  lemma CountRemoved<S>(b: seq<S>, i: nat, test: S -> bool)
    requires i < |b|
    ensures Count(b, test) == Count(b[..i] + b[i + 1..], test) + (if test(b[i]) then 1 else 0)
  {
    SplitAt(b, i);
    CountConcat(b[..i] + [b[i]], b[i + 1..], test);
    CountSnoc(b[..i], b[i], test);
    CountConcat(b[..i], b[i + 1..], test);
  }

  lemma SplitAt<S>(b: seq<S>, i: nat)
    requires i < |b|
    ensures b == b[..i] + [b[i]] + b[i + 1..]
  {
  }

  lemma InitOf<S>(a: seq<S>)
    requires a != []
    ensures multiset(a[..|a| - 1]) == multiset(a) - multiset{a[|a| - 1]} && a[|a| - 1] in multiset(a)
  {
    assert a == a[..|a| - 1] + [a[|a| - 1]];
  }

  /** A permutation keeps every count. */
  lemma {:induction false} CountPermutation<S>(a: seq<S>, b: seq<S>, test: S -> bool)
    requires multiset(a) == multiset(b)
    ensures Count(a, test) == Count(b, test)
  {
    if a == [] {
      assert |multiset(b)| == 0;
    } else {
      var x := a[|a| - 1];
      InitOf(a);
      var i :| 0 <= i < |b| && b[i] == x;
      RemoveOne(b, i);
      CountRemoved(b, i, test);
      CountPermutation(a[..|a| - 1], b[..i] + b[i + 1..], test);
    }
  }

  function Filter<S>(s: seq<S>, keep: S -> bool): (r: seq<S>) {
    if s == [] then []
    else if keep(s[|s| - 1]) then Filter(s[..|s| - 1], keep) + [s[|s| - 1]]
    else Filter(s[..|s| - 1], keep)
  }

  /** Two filters that divide a third share out what it keeps. */
  lemma {:induction false} FiltersShare<S>(s: seq<S>, one: S -> bool, two: S -> bool, both: S -> bool, test: S -> bool)
    requires forall x :: both(x) == (one(x) || two(x)) && !(one(x) && two(x))
    ensures Count(Filter(s, one), test) + Count(Filter(s, two), test) == Count(Filter(s, both), test)
  {
    if s != [] {
      var init, x := s[..|s| - 1], s[|s| - 1];
      FiltersShare(init, one, two, both, test);
      CountSnoc(Filter(init, one), x, test);
      CountSnoc(Filter(init, two), x, test);
      CountSnoc(Filter(init, both), x, test);
    }
  }

  // ---------------------------------------------------------------------------------------------
  // What placement may not change

  /** A text without what its place decides. */
  function Core(line: Line): (r: Line) {
    line.(kind := StringTableEntry, namespace := "", field := "")
  }

  function IsCore(core: Line): (test: Line -> bool) {
    line => Core(line) == core
  }

  /** How many of the texts are this one, wherever it is placed. */
  function Copies(lines: seq<Line>, core: Line): (n: nat) {
    Count(lines, IsCore(core))
  }

  function PlanCopies(packages: seq<Package>, core: Line): (n: nat) {
    if packages == [] then 0
    else PlanCopies(packages[..|packages| - 1], core) + Copies(packages[|packages| - 1].lines, core)
  }

  lemma PlanCopiesSnoc(packages: seq<Package>, owner: Package, core: Line)
    ensures PlanCopies(packages + [owner], core) == PlanCopies(packages, core) + Copies(owner.lines, core)
  {
    assert (packages + [owner])[..|packages|] == packages;
  }

  lemma UpdateSnoc<S>(s: seq<S>, p: nat, x: S)
    requires p < |s|
    ensures var init, last := s[..|s| - 1], s[|s| - 1];
      && s == init + [last]
      && s[p := x] == (if p == |s| - 1 then init + [x] else init[p := x] + [last])
  {
  }

  lemma {:induction false} PlanCopiesAppend(packages: seq<Package>, p: nat, owner: Package, line: Line, core: Line)
    requires p < |packages| && owner.lines == packages[p].lines + [line]
    ensures PlanCopies(packages[p := owner], core) ==
            PlanCopies(packages, core) + (if Core(line) == core then 1 else 0)
  {
    var n := |packages| - 1;
    var init, last := packages[..n], packages[n];
    UpdateSnoc(packages, p, owner);
    PlanCopiesSnoc(init, last, core);
    if p == n {
      CountSnoc(last.lines, line, IsCore(core));
      PlanCopiesSnoc(init, owner, core);
    } else {
      PlanCopiesAppend(init, p, owner, line, core);
      PlanCopiesSnoc(init[p := owner], last, core);
    }
  }

  lemma {:induction false} LineCountAppend(packages: seq<Package>, p: nat, owner: Package)
    requires p < |packages| && |owner.lines| == |packages[p].lines| + 1
    ensures LineCount(packages[p := owner]) == LineCount(packages) + 1
  {
    var n := |packages| - 1;
    var r := packages[p := owner];
    if p == n {
      assert r[..n] == packages[..n];
    } else {
      LineCountAppend(packages[..n], p, owner);
      assert r[..n] == packages[..n][p := owner];
    }
  }

  // ---------------------------------------------------------------------------------------------
  // Which texts move

  const FIXED: seq<string> := [
    "manifest-notes-only", "package-namespace", "blueprint-variable", "widget", "string-table-collision-a",
    "string-table-collision-b", "same-key-other-namespace-a", "same-key-other-namespace-b",
    "conflict-across-tables-a", "conflict-across-tables-b"]

  /** The name before its `@`. */
  function Recipe(name: string): (r: string) {
    if name == "" || name[0] == '@' then "" else [name[0]] + Recipe(name[1..])
  }

  function KeyCount(lines: seq<Line>, key: string): (n: nat) {
    if lines == [] then 0
    else KeyCount(lines[..|lines| - 1], key) + (if lines[|lines| - 1].key == key then 1 else 0)
  }

  predicate Movable(line: Line, lines: seq<Line>) {
    && line.mode.Plain? && line.present && line.gathered && line.compiledSource == "" && line.previousSource == ""
    && KeyCount(lines, line.key) == 1
    && (forall i | 0 <= i < |line.signals| :: line.signals[i] == "long")
    && Recipe(line.name) !in FIXED
  }

  function Moved(lines: seq<Line>): (r: seq<Line>) {
    Filter(lines, line => Movable(line, lines))
  }

  function Kept(lines: seq<Line>): (r: seq<Line>) {
    Filter(lines, line => !Movable(line, lines) && !line.mode.Scaffold?)
  }

  function Unscaffolded(lines: seq<Line>): (r: seq<Line>) {
    Filter(lines, (line: Line) => !line.mode.Scaffold?)
  }

  lemma SplitConserves(lines: seq<Line>, core: Line)
    ensures Copies(Kept(lines), core) + Copies(Moved(lines), core) == Copies(Unscaffolded(lines), core)
  {
    FiltersShare(lines, line => !Movable(line, lines) && !line.mode.Scaffold?, line => Movable(line, lines),
                 (line: Line) => !line.mode.Scaffold?, IsCore(core));
  }

  /** The texts of a plan that are not scaffolds. */
  function PlannedCopies(packages: seq<Package>, core: Line): (n: nat) {
    if packages == [] then 0
    else PlannedCopies(packages[..|packages| - 1], core) + Copies(Unscaffolded(packages[|packages| - 1].lines), core)
  }

  function KeepOf(owner: Package): (r: Package) {
    owner.(lines := Kept(owner.lines))
  }

  function KeepAll(packages: seq<Package>): (r: seq<Package>)
    ensures |r| == |packages|
  {
    if packages == [] then [] else KeepAll(packages[..|packages| - 1]) + [KeepOf(packages[|packages| - 1])]
  }

  function MovedAll(packages: seq<Package>): (r: seq<Line>) {
    if packages == [] then [] else MovedAll(packages[..|packages| - 1]) + Moved(packages[|packages| - 1].lines)
  }

  /** What stays and what moves is everything but the scaffolds. */
  lemma {:induction false} TakingConserves(packages: seq<Package>, core: Line)
    ensures PlanCopies(KeepAll(packages), core) + Copies(MovedAll(packages), core) == PlannedCopies(packages, core)
  {
    if packages != [] {
      var init, last := packages[..|packages| - 1], packages[|packages| - 1];
      TakingConserves(init, core);
      SplitConserves(last.lines, core);
      PlanCopiesSnoc(KeepAll(init), KeepOf(last), core);
      CountConcat(MovedAll(init), Moved(last.lines), IsCore(core));
    }
  }

  /** Takes the movable texts out of every package. */
  method TakeMovable(original: seq<Package>) returns (packages: seq<Package>, moving: seq<Line>)
    ensures packages == KeepAll(original) && moving == MovedAll(original)
  {
    packages, moving := [], [];
    for p := 0 to |original|
      invariant packages == KeepAll(original[..p]) && moving == MovedAll(original[..p])
    {
      assert original[..p + 1][..p] == original[..p] && original[..p + 1][p] == original[p];
      packages := packages + [KeepOf(original[p])];
      moving := moving + Moved(original[p].lines);
    }
    assert original[..|original|] == original;
  }

  // ---------------------------------------------------------------------------------------------
  // Background texts

  const MIX: seq<SourceKind> := [
    StringTableEntry, StringTableEntry, StringTableEntry, StringTableEntry, DataTableCell, DataTableCell,
    DataTableCell, BlueprintVariable, BlueprintPin, WidgetText]

  const KINDS: seq<SourceKind> := [StringTableEntry, DataTableCell, BlueprintVariable, BlueprintPin, WidgetText]

  /** What the planner relies on in background text number `id`. */
  predicate Background(line: Line, id: nat, seed: nat) {
    line.name == BACKGROUND && WellMade(line) && line.key == "BG" + Decimal(id) && line.kind == MIX[(id + seed) % 10]
  }

  /** Background texts numbered on from `first`. */
  ghost predicate Numbered(lines: seq<Line>, first: nat, seed: nat) {
    forall k | 0 <= k < |lines| :: Background(lines[k], first + k, seed)
  }

  /** Things numbered on from `first`, each made in the state the one before left. */
  function Made<T>(make: (nat, nat) -> T, next: nat -> nat, first: nat, count: nat, value: nat): (r: seq<T>)
    ensures |r| == count
    decreases count
  {
    if count == 0 then []
    else [make(first, value)] + Made(make, next, first + 1, count - 1, next(value))
  }

  function AfterMade(next: nat -> nat, count: nat, value: nat): (r: nat) {
    if count == 0 then value else AfterMade(next, count - 1, next(value))
  }

  /** One thing moves from what is still to be made to what is there. */
  lemma MadeStep<T>(make: (nat, nat) -> T, next: nat -> nat, i: nat, count: nat, value: nat, x: T, after: nat,
                    done: seq<T>, all: seq<T>)
    requires count > 0 && x == make(i, value) && after == next(value)
    requires done + Made(make, next, i, count, value) == all
    ensures (done + [x]) + Made(make, next, i + 1, count - 1, after) == all
    ensures AfterMade(next, count - 1, after) == AfterMade(next, count, value)
  {
    var rest := Made(make, next, i + 1, count - 1, after);
    assert done + ([x] + rest) == (done + [x]) + rest;
  }

  lemma {:induction false} MadeAre<T>(make: (nat, nat) -> T, next: nat -> nat, first: nat, count: nat, value: nat,
                                      good: (nat, T) -> bool)
    requires forall id: nat, v: nat :: good(id, make(id, v))
    ensures forall k | 0 <= k < count :: good(first + k, Made(make, next, first, count, value)[k])
    decreases count
  {
    if count > 0 {
      var rest := Made(make, next, first + 1, count - 1, next(value));
      MadeAre(make, next, first + 1, count - 1, next(value), good);
      forall k | 0 <= k < count
        ensures good(first + k, Made(make, next, first, count, value)[k])
      {
        if k > 0 {
          assert good(first + 1 + (k - 1), rest[k - 1]);
        }
      }
    }
  }

  /** Background text number `id`, drawn from a generator state on. */
  function MixedBackground(id: nat, seed: nat, value: nat, w: Wording): (line: Line) {
    DrawnBackground(id, seed, MIX[(id + seed) % 10], value, w)
  }

  function Maker(seed: nat, w: Wording): (nat, nat) -> Line {
    (id: nat, value: nat) => MixedBackground(id, seed, value, w)
  }

  function AfterText(value: nat): (r: nat) {
    Next(Next(value))
  }

  method MakeBackground(random: Draws, id: nat, seed: nat, w: Wording, ghost make: (nat, nat) -> Line,
                        ghost next: nat -> nat) returns (line: Line)
    requires Makes(make, next, seed, w)
    modifies random
    ensures line == make(id, old(random.value)) && random.value == next(old(random.value))
  {
    var template := random.Integer(0, 5);
    var padding := random.Integer(0, 2);
    line := BackgroundLine(id, seed, MIX[(id + seed) % 10], template, padding, w);
    assert line == MixedBackground(id, seed, old(random.value), w);
  }

  /** How background texts are made and what they draw, as functions the loop below need not look into. */
  ghost predicate Makes(make: (nat, nat) -> Line, next: nat -> nat, seed: nat, w: Wording) {
    && (forall id: nat, value: nat :: make(id, value) == MixedBackground(id, seed, value, w))
    && forall value: nat :: next(value) == AfterText(value)
  }

  /** The texts from number `first` up to `end`. */
  method MakeAllBackground(random: Draws, first: nat, end: nat, seed: nat, w: Wording, ghost make: (nat, nat) -> Line,
                        ghost next: nat -> nat) returns (added: seq<Line>)
    requires first <= end && Makes(make, next, seed, w)
    modifies random
    ensures added == Made(make, next, first, end - first, old(random.value))
    ensures random.value == AfterMade(next, end - first, old(random.value))
  {
    added := [];
    ghost var all := Made(make, next, first, end - first, random.value);
    ghost var after := AfterMade(next, end - first, random.value);
    for i := first to end
      invariant added + Made(make, next, i, end - i, random.value) == all
      invariant AfterMade(next, end - i, random.value) == after
    {
      ghost var value := random.value;
      var line := MakeBackground(random, i, seed, w, make, next);
      MadeStep(make, next, i, end - i, value, line, random.value, added, all);
      added := added + [line];
    }
  }

  /** So many background texts. */
  function BackgroundFrom(first: nat, count: nat, seed: nat, value: nat, w: Wording): (r: seq<Line>)
    ensures |r| == count
  {
    Made(Maker(seed, w), AfterText, first, count, value)
  }

  function AfterBackground(count: nat, value: nat): (r: nat) {
    AfterMade(AfterText, count, value)
  }

  lemma MakerGood(seed: nat, w: Wording, id: nat, value: nat)
    ensures Background(Maker(seed, w)(id, value), id, seed)
  {
  }

  lemma BackgroundNumbered(first: nat, count: nat, seed: nat, value: nat, w: Wording)
    ensures Numbered(BackgroundFrom(first, count, seed, value, w), first, seed)
  {
    var good := (id: nat, line: Line) => Background(line, id, seed);
    forall id: nat, v: nat
      ensures good(id, Maker(seed, w)(id, v))
    {
      MakerGood(seed, w, id, v);
    }
    MadeAre(Maker(seed, w), AfterText, first, count, value, good);
  }

  /** At least twenty, and as many as the requested lines ask for. */
  function MissingLines(visible: nat, lines: nat): (n: nat) {
    if lines > visible + 20 then lines - visible else 20
  }

  /** Fills the corpus up. */
  method AddBackground(random: Draws, visible: nat, lines: nat, seed: nat, w: Wording) returns (added: seq<Line>)
    modifies random
    ensures added == BackgroundFrom(visible, MissingLines(visible, lines), seed, old(random.value), w)
    ensures random.value == AfterBackground(MissingLines(visible, lines), old(random.value))
    ensures Numbered(added, visible, seed)
  {
    var end := if lines > visible + 20 then lines else visible + 20;
    BackgroundNumbered(visible, end - visible, seed, random.value, w);
    added := MakeAllBackground(random, visible, end, seed, w, Maker(seed, w), AfterText);
  }

  // ---------------------------------------------------------------------------------------------
  // Packing

  /** The kind a text takes in a package. */
  function KindIn(kind: SourceKind, owner: PackageKind): (r: SourceKind) {
    match owner
    case Blueprint => if kind.BlueprintPin? then BlueprintPin else BlueprintVariable
    case StringTable => StringTableEntry
    case DataTable => DataTableCell
    case WidgetBlueprint => WidgetText
  }

  function NamespaceIn(owner: Package): (s: string) {
    if owner.kind.StringTable? then owner.tableNamespace else "[" + owner.packageNamespace + "]"
  }

  function FieldOf(line: Line, kind: SourceKind): (s: string) {
    if kind.DataTableCell? then line.key + ".DisplayName"
    else if kind.BlueprintPin? then
      (if line.name == BACKGROUND then "TextToUpper" else "PrintText") + "_" + line.key + ".InText"
    else line.key
  }

  function PlacedLine(line: Line, owner: Package): (r: Line) {
    var kind := KindIn(line.kind, owner.kind);
    line.(kind := kind, namespace := NamespaceIn(owner), field := FieldOf(line, kind))
  }

  /** A text that agrees with the package it lies in. */
  ghost predicate Fits(line: Line, owner: Package) {
    && PackageKindOf(line.kind) == owner.kind && line.namespace == NamespaceIn(owner)
    && line.field == FieldOf(line, line.kind)
  }

  lemma PlacedFits(line: Line, owner: Package)
    ensures Fits(PlacedLine(line, owner), owner) && Core(PlacedLine(line, owner)) == Core(line)
  {
  }

  /** The capacities a kind of package may draw. */
  predicate CapacityOf(kind: PackageKind, n: nat) {
    match kind
    case StringTable => 20 <= n <= 60
    case DataTable => 16 <= n <= 50
    case Blueprint => 4 <= n <= 8
    case WidgetBlueprint => 3 <= n <= 10
  }

  predicate Dedicated(name: string) {
    "custom-" <= name || "policy-" <= name || "measure-" <= name
  }

  /** The capacity drawn for a kind from generator state `value` on. */
  function CapacityDrawn(kind: PackageKind, value: nat): (n: nat)
    ensures CapacityOf(kind, n)
  {
    match kind
    case StringTable => Drawn(Next(value), 20, 60)
    case DataTable => Drawn(Next(value), 16, 50)
    case Blueprint => Max(Drawn(Next(value), 4, 8), Drawn(Next(Next(value)), 4, 8))
    case WidgetBlueprint => Drawn(Next(value), 3, 10)
  }

  function AfterCapacity(kind: PackageKind, value: nat): (r: nat) {
    if kind.Blueprint? then Next(Next(value)) else Next(value)
  }

  method DrawCapacity(kind: PackageKind, random: Draws) returns (n: nat)
    modifies random
    ensures n == CapacityDrawn(kind, old(random.value)) && random.value == AfterCapacity(kind, old(random.value))
  {
    match kind
    case StringTable => n := random.Integer(20, 60);
    case DataTable => n := random.Integer(16, 50);
    case Blueprint =>
      var a := random.Integer(4, 8);
      var b := random.Integer(4, 8);
      n := if a > b then a else b;
    case WidgetBlueprint => n := random.Integer(3, 10);
  }

  function Prefix(kind: PackageKind): (s: string) {
    match kind
    case StringTable => "ST"
    case DataTable => "DT"
    case Blueprint => "BP"
    case WidgetBlueprint => "WBP"
  }

  datatype Pool = Pool(owner: nat, capacity: nat)

  const MIXED: string := "Mixed"
  const CASES: string := "Cases"

  /** The same texts as before. */
  ghost predicate SameTexts(a: seq<Package>, b: seq<Package>) {
    (forall core :: PlanCopies(b, core) == PlanCopies(a, core)) && LineCount(b) == LineCount(a)
  }

  /** One text more, wherever it is. */
  ghost predicate OneMore(a: seq<Package>, b: seq<Package>, line: Line) {
    && (forall core :: PlanCopies(b, core) == PlanCopies(a, core) + (if Core(line) == core then 1 else 0))
    && LineCount(b) == LineCount(a) + 1
  }

  /** Some texts more. */
  ghost predicate TheseMore(a: seq<Package>, b: seq<Package>, lines: seq<Line>) {
    && (forall core :: PlanCopies(b, core) == PlanCopies(a, core) + Copies(lines, core))
    && LineCount(b) == LineCount(a) + |lines|
  }

  /** Every text agrees with its package, and the case texts are those outside the pools. */
  ghost predicate AllFit(owner: Package) {
    forall l | 0 <= l < |owner.lines| ::
      Fits(owner.lines[l], owner) && (Dedicated(owner.lines[l].name) <==> owner.folder == CASES)
  }

  /**
   * A package made by packing: a pooled one within the capacity drawn for it, and full unless it is the
   * open pool of its kind, or one of its own for a single text.
   */
  ghost predicate Capped(owner: Package, p: nat, capacities: map<nat, nat>, pools: map<PackageKind, Pool>) {
    && AllFit(owner)
    && (owner.folder == MIXED ==>
          && p in capacities && CapacityOf(owner.kind, capacities[p]) && |owner.lines| <= capacities[p]
          && (|owner.lines| < capacities[p] ==> owner.kind in pools && pools[owner.kind] == Pool(p, capacities[p])))
    && (owner.folder != MIXED ==> owner.folder == CASES && |owner.lines| <= 1)
  }

  ghost predicate Packed(packages: seq<Package>, base: nat, capacities: map<nat, nat>, pools: map<PackageKind, Pool>) {
    base <= |packages| && forall p | base <= p < |packages| :: Capped(packages[p], p, capacities, pools)
  }

  /** A drawn capacity belongs to a pooled package, and an open pool to a package of its kind. */
  ghost predicate Pooled(packages: seq<Package>, base: nat, capacities: map<nat, nat>, pools: map<PackageKind, Pool>) {
    && (forall p | p in capacities :: base <= p < |packages| && packages[p].folder == MIXED)
    && (forall kind | kind in pools :: pools[kind].owner in capacities && packages[pools[kind].owner].kind == kind
          && capacities[pools[kind].owner] == pools[kind].capacity)
  }

  /** Capacities, once drawn, stay. */
  ghost predicate Stays(a: map<nat, nat>, b: map<nat, nat>) {
    forall p | p in a :: p in b && b[p] == a[p]
  }

  lemma PoolOpens(packages: seq<Package>, base: nat, capacities: map<nat, nat>, pools: map<PackageKind, Pool>,
                  owner: Package, capacity: nat)
    requires Packed(packages, base, capacities, pools) && Pooled(packages, base, capacities, pools)
    requires owner.folder == MIXED && owner.lines == [] && CapacityOf(owner.kind, capacity)
    requires owner.kind in pools ==> |packages[pools[owner.kind].owner].lines| >= pools[owner.kind].capacity
    ensures var p := |packages|;
      var more, now := capacities[p := capacity], pools[owner.kind := Pool(p, capacity)];
      && Packed(packages + [owner], base, more, now) && Pooled(packages + [owner], base, more, now)
      && Stays(capacities, more)
  {
    var n := |packages|;
    var all, more, now := packages + [owner], capacities[n := capacity], pools[owner.kind := Pool(n, capacity)];
    forall p | base <= p < |all|
      ensures Capped(all[p], p, more, now)
    {
      if p < n {
        assert Capped(packages[p], p, capacities, pools);
      }
    }
  }

  lemma CaseOpens(packages: seq<Package>, base: nat, capacities: map<nat, nat>, pools: map<PackageKind, Pool>,
                  owner: Package)
    requires Packed(packages, base, capacities, pools) && Pooled(packages, base, capacities, pools)
    requires owner.folder == CASES && owner.lines == []
    ensures Packed(packages + [owner], base, capacities, pools) && Pooled(packages + [owner], base, capacities, pools)
  {
    var all := packages + [owner];
    forall p | base <= p < |all|
      ensures Capped(all[p], p, capacities, pools)
    {
      if p < |packages| {
        assert Capped(packages[p], p, capacities, pools);
      }
    }
  }

  /** A package that can take one more text. */
  ghost predicate HasRoom(owner: Package, p: nat, capacities: map<nat, nat>) {
    if owner.folder == MIXED then p in capacities && |owner.lines| < capacities[p] else owner.lines == []
  }

  function WithLine(owner: Package, line: Line): Package {
    owner.(lines := owner.lines + [PlacedLine(line, owner)])
  }

  lemma PlacePacks(packages: seq<Package>, base: nat, capacities: map<nat, nat>, pools: map<PackageKind, Pool>,
                   p: nat, line: Line)
    requires Packed(packages, base, capacities, pools) && Pooled(packages, base, capacities, pools)
    requires base <= p < |packages| && HasRoom(packages[p], p, capacities)
    requires Dedicated(line.name) <==> packages[p].folder == CASES
    ensures var all := packages[p := WithLine(packages[p], line)];
      Packed(all, base, capacities, pools) && Pooled(all, base, capacities, pools)
  {
    var all := packages[p := WithLine(packages[p], line)];
    PlacedFits(line, packages[p]);
    assert Capped(packages[p], p, capacities, pools);
    forall q | base <= q < |all|
      ensures Capped(all[q], q, capacities, pools)
    {
      assert Capped(packages[q], q, capacities, pools);
    }
  }

  lemma PlaceCounts(packages: seq<Package>, p: nat, line: Line)
    requires p < |packages|
    ensures OneMore(packages, packages[p := WithLine(packages[p], line)], line)
  {
    var owner, more := packages[p], WithLine(packages[p], line);
    PlacedFits(line, owner);
    forall core
      ensures PlanCopies(packages[p := more], core) ==
              PlanCopies(packages, core) + (if Core(line) == core then 1 else 0)
    {
      PlanCopiesAppend(packages, p, more, PlacedLine(line, owner), core);
    }
    LineCountAppend(packages, p, more);
  }

  /** Where one text went: into a pooled package, or alone into one of its own; the others are as they were. */
  ghost predicate Goes(before: seq<Package>, after: seq<Package>, p: nat, moving: Line) {
    && |before| <= |after| && p < |after| && after[p].lines != []
    && Core(after[p].lines[|after[p].lines| - 1]) == Core(moving)
    && (Dedicated(moving.name) ==> after[p].folder == CASES && |after[p].lines| == 1 && p >= |before|)
    && (!Dedicated(moving.name) ==> after[p].folder == MIXED)
    && (forall q | 0 <= q < |before| && q != p :: after[q] == before[q])
    && (forall q | |before| <= q < |after| && q != p :: after[q].lines == [] && after[q].folder == MIXED)
  }

  /** The packages opened for a text hold nothing yet; only the one for a case text is not pooled. */
  ghost predicate Chosen(before: seq<Package>, after: seq<Package>, p: nat, dedicated: bool) {
    && before <= after && p < |after| && SameTexts(before, after)
    && (forall q | |before| <= q < |after| :: after[q].lines == [] && (q != p ==> after[q].folder == MIXED))
    && (if dedicated then p >= |before| && after[p].folder == CASES else after[p].folder == MIXED)
  }

  lemma ChosenPool(before: seq<Package>, after: seq<Package>, p: nat)
    requires p < |after| && SameTexts(before, after) && after[p].folder == MIXED
    requires after == before || (after == before + [after[p]] && p == |before| && after[p].lines == [])
    ensures Chosen(before, after, p, false)
  {
  }

  lemma ChosenCase(before: seq<Package>, after: seq<Package>, p: nat, owner: Package)
    requires Chosen(before, after, p, false) && owner.folder == CASES && owner.lines == []
    ensures Chosen(before, after + [owner], |after|, true)
  {
    OpenEmpty(after, owner);
    var all := after + [owner];
    assert forall q | 0 <= q < |after| :: all[q] == after[q];
    assert all[|after|] == owner;
  }

  // ---------------------------------------------------------------------------------------------
  // The packing as a function of the generator state

  /** The packer between two steps, with the capacity drawn for each pooled package and the generator state. */
  datatype Packing = Packing(
    packages: seq<Package>,
    serial: nat,
    pools: map<PackageKind, Pool>,
    capacities: map<nat, nat>,
    value: nat)

  function NewPackage(kind: PackageKind, name: string, folder: string, root: string, value: nat): (r: Package) {
    Package(kind, name, folder, root + "/" + folder + "/" + name, Guid(value), Guid(AfterGuid(value)), "Corpus." + name,
            [])
  }

  predicate HasOpen(s: Packing, kind: PackageKind) {
    && kind in s.pools && s.pools[kind].owner < |s.packages|
    && |s.packages[s.pools[kind].owner].lines| < s.pools[kind].capacity
  }

  /** With a pool of the kind that has room: the open one, or a new one. */
  function WithPool(s: Packing, kind: PackageKind, root: string): (r: Packing)
    ensures kind in r.pools
  {
    if HasOpen(s, kind) then s
    else
      var owner := NewPackage(kind, Prefix(kind) + "_" + Decimal(s.serial), MIXED, root, s.value);
      var v := AfterGuid(AfterGuid(s.value));
      var capacity, p := CapacityDrawn(kind, v), |s.packages|;
      Packing(s.packages + [owner], s.serial + 1, s.pools[kind := Pool(p, capacity)], s.capacities[p := capacity],
              AfterCapacity(kind, v))
  }

  /** With a new package of its own for a case text. */
  function WithCase(s: Packing, kind: PackageKind, root: string): (r: Packing)
    ensures |r.packages| == |s.packages| + 1
  {
    s.(packages := s.packages + [NewPackage(kind, "Case_" + Decimal(s.serial), CASES, root, s.value)],
       serial := s.serial + 1, value := AfterGuid(AfterGuid(s.value)))
  }

  /** A background text keeps its kind, any other draws one. */
  function KindDrawn(moving: Line, value: nat): (line: Line)
    ensures Core(line) == Core(moving) && line.name == moving.name
  {
    if moving.name == BACKGROUND then moving
    else moving.(kind := KINDS[Drawn(Next(value), 0, |KINDS| - 1)])
  }

  function AfterKind(moving: Line, value: nat): (r: nat) {
    if moving.name == BACKGROUND then value else Next(value)
  }

  /** With the package for a text, and which it is. */
  function ChosenFor(s: Packing, line: Line, root: string): (r: (Packing, nat)) {
    var pooled := WithPool(s, PackageKindOf(line.kind), root);
    if Dedicated(line.name) then (WithCase(pooled, PackageKindOf(line.kind), root), |pooled.packages|)
    else (pooled, pooled.pools[PackageKindOf(line.kind)].owner)
  }

  function WithText(packages: seq<Package>, p: nat, line: Line): (r: seq<Package>) {
    if p < |packages| then packages[p := WithLine(packages[p], line)] else packages
  }

  /** After one text. */
  function PackNext(s: Packing, moving: Line, root: string): (r: Packing) {
    var line := KindDrawn(moving, s.value);
    var (chosen, p) := ChosenFor(s.(value := AfterKind(moving, s.value)), line, root);
    chosen.(packages := WithText(chosen.packages, p, line))
  }

  function PackAll(s: Packing, moving: seq<Line>, root: string): (r: Packing) {
    if moving == [] then s
    else PackNext(PackAll(s, moving[..|moving| - 1], root), moving[|moving| - 1], root)
  }

  lemma PackSnoc(s: Packing, moving: seq<Line>, i: nat, root: string)
    requires i < |moving|
    ensures PackAll(s, moving[..i + 1], root) == PackNext(PackAll(s, moving[..i], root), moving[i], root)
  {
    assert moving[..i + 1][..i] == moving[..i];
  }

  ghost predicate Sound(s: Packing, base: nat) {
    Packed(s.packages, base, s.capacities, s.pools) && Pooled(s.packages, base, s.capacities, s.pools)
  }

  /** The pool of a kind has room, and nothing else has changed. */
  ghost predicate PoolReady(s: Packing, r: Packing, base: nat, kind: PackageKind)
    requires kind in r.pools
  {
    var p := r.pools[kind].owner;
    && base <= p < |r.packages| && Stays(s.capacities, r.capacities) && SameTexts(s.packages, r.packages)
    && (r.packages == s.packages || (r.packages == s.packages + [r.packages[p]] && p == |s.packages|))
    && (p == |s.packages| ==> r.packages[p].lines == [])
    && r.packages[p].kind == kind && r.packages[p].folder == MIXED && HasRoom(r.packages[p], p, r.capacities)
  }

  lemma PoolKeeps(s: Packing, base: nat, kind: PackageKind, root: string)
    requires Sound(s, base)
    ensures Sound(WithPool(s, kind, root), base) && PoolReady(s, WithPool(s, kind, root), base, kind)
  {
    if !HasOpen(s, kind) {
      var owner := NewPackage(kind, Prefix(kind) + "_" + Decimal(s.serial), MIXED, root, s.value);
      PoolOpens(s.packages, base, s.capacities, s.pools, owner,
                CapacityDrawn(kind, AfterGuid(AfterGuid(s.value))));
      OpenEmpty(s.packages, owner);
    }
  }

  /** Package p can take the text, and nothing else has changed. */
  ghost predicate Ready(s: Packing, r: Packing, p: nat, base: nat, dedicated: bool) {
    && base <= p < |r.packages| && Stays(s.capacities, r.capacities)
    && HasRoom(r.packages[p], p, r.capacities) && Chosen(s.packages, r.packages, p, dedicated)
  }

  lemma ChoiceKeeps(s: Packing, base: nat, line: Line, root: string)
    requires Sound(s, base)
    ensures var (r, p) := ChosenFor(s, line, root); Sound(r, base) && Ready(s, r, p, base, Dedicated(line.name))
  {
    var kind := PackageKindOf(line.kind);
    var pooled := WithPool(s, kind, root);
    PoolKeeps(s, base, kind, root);
    ChosenPool(s.packages, pooled.packages, pooled.pools[kind].owner);
    if Dedicated(line.name) {
      var owner := NewPackage(kind, "Case_" + Decimal(pooled.serial), CASES, root, pooled.value);
      CaseOpens(pooled.packages, base, pooled.capacities, pooled.pools, owner);
      ChosenCase(s.packages, pooled.packages, pooled.pools[kind].owner, owner);
    }
  }

  /** One text more, in one package. */
  ghost predicate Packs(s: Packing, r: Packing, p: nat, base: nat, moving: Line) {
    && base <= p && Stays(s.capacities, r.capacities) && OneMore(s.packages, r.packages, moving)
    && Goes(s.packages, r.packages, p, moving)
  }

  /** The package the next text goes into. */
  function PlaceOf(s: Packing, moving: Line, root: string): (p: nat) {
    ChosenFor(s.(value := AfterKind(moving, s.value)), KindDrawn(moving, s.value), root).1
  }

  lemma NextKeeps(s: Packing, base: nat, moving: Line, root: string)
    requires Sound(s, base)
    ensures var r := PackNext(s, moving, root);
      Sound(r, base) && Packs(s, r, PlaceOf(s, moving, root), base, moving)
  {
    var line := KindDrawn(moving, s.value);
    var drawn := s.(value := AfterKind(moving, s.value));
    var (chosen, p) := ChosenFor(drawn, line, root);
    ChoiceKeeps(drawn, base, line, root);
    PlacePacks(chosen.packages, base, chosen.capacities, chosen.pools, p, line);
    PlaceCounts(chosen.packages, p, line);
    OneMoreMoved(s.packages, chosen.packages, WithText(chosen.packages, p, line), line, moving);
    ChosenGoes(s.packages, chosen.packages, p, line, moving);
  }

  lemma PoolOpened(s: Packing, kind: PackageKind, root: string, owner: Package, capacity: nat, r: Packing)
    requires !HasOpen(s, kind)
    requires owner == NewPackage(kind, Prefix(kind) + "_" + Decimal(s.serial), MIXED, root, s.value)
    requires var v := AfterGuid(AfterGuid(s.value)); var p := |s.packages|;
      && capacity == CapacityDrawn(kind, v)
      && r == Packing(s.packages + [owner], s.serial + 1, s.pools[kind := Pool(p, capacity)],
                      s.capacities[p := capacity], AfterCapacity(kind, v))
    ensures r == WithPool(s, kind, root)
  {
  }

  lemma ChoiceIs(s: Packing, pooled: Packing, chosen: Packing, line: Line, p: nat, root: string)
    requires pooled == WithPool(s, PackageKindOf(line.kind), root)
    requires if Dedicated(line.name)
      then chosen == WithCase(pooled, PackageKindOf(line.kind), root) && p == |pooled.packages|
      else chosen == pooled && p == pooled.pools[PackageKindOf(line.kind)].owner
    ensures (chosen, p) == ChosenFor(s, line, root)
  {
  }

  lemma NextIs(s: Packing, drawn: Packing, chosen: Packing, moving: Line, line: Line, p: nat, root: string)
    requires line == KindDrawn(moving, s.value) && drawn == s.(value := AfterKind(moving, s.value))
    requires (chosen, p) == ChosenFor(drawn, line, root)
    ensures chosen.(packages := WithText(chosen.packages, p, line)) == PackNext(s, moving, root)
    ensures p == PlaceOf(s, moving, root)
  {
  }

  method DrawKind(moving: Line, random: Draws) returns (line: Line)
    modifies random
    ensures line == KindDrawn(moving, old(random.value)) && random.value == AfterKind(moving, old(random.value))
  {
    line := moving;
    if line.name != BACKGROUND {
      var k := random.Integer(0, |KINDS| - 1);
      line := line.(kind := KINDS[k]);
    }
  }

  class Placer {
    var packages: seq<Package>
    var serial: nat
    var pools: map<PackageKind, Pool>

    /** How many packages were there before packing, and the capacity drawn for each pooled one since. */
    ghost const base: nat
    ghost var capacities: map<nat, nat>

    ghost predicate Valid()
      reads this
    {
      Packed(packages, base, capacities, pools) && Pooled(packages, base, capacities, pools)
    }

    ghost function State(random: Draws): Packing
      reads this, random
    {
      Packing(packages, serial, pools, capacities, random.value)
    }

    constructor (packages: seq<Package>)
      ensures Valid() && this.packages == packages && base == |packages|
      ensures serial == 0 && pools == map[] && capacities == map[]
    {
      this.packages, serial, pools := packages, 0, map[];
      base, capacities := |packages|, map[];
    }

    /** A package of the kind with room, opening a new pool when the last one is full. */
    method OwnerFor(kind: SourceKind, random: Draws, root: string) returns (p: nat)
      requires Valid()
      modifies this, random
      ensures State(random) == WithPool(old(State(random)), PackageKindOf(kind), root)
      ensures p == pools[PackageKindOf(kind)].owner
      ensures Valid() && PoolReady(old(State(random)), State(random), base, PackageKindOf(kind))
    {
      ghost var start := State(random);
      PoolKeeps(start, base, PackageKindOf(kind), root);
      var type_ := PackageKindOf(kind);
      if !(type_ in pools && |packages[pools[type_].owner].lines| < pools[type_].capacity) {
        OpenPool(type_, random, root);
      }
      p := pools[type_].owner;
    }

    /** A new pool for a kind without one that has room. */
    method OpenPool(kind: PackageKind, random: Draws, root: string)
      requires !HasOpen(State(random), kind)
      modifies this, random
      ensures State(random) == WithPool(old(State(random)), kind, root)
    {
      ghost var start := State(random);
      var owner := Open(kind, Prefix(kind) + "_" + Decimal(serial), MIXED, random, root);
      var capacity := DrawCapacity(kind, random);
      pools := pools[kind := Pool(|packages| - 1, capacity)];
      capacities := capacities[|packages| - 1 := capacity];
      PoolOpened(start, kind, root, owner, capacity, State(random));
    }

    /** A new package without texts. */
    method Open(kind: PackageKind, name: string, folder: string, random: Draws, root: string) returns (owner: Package)
      modifies this`packages, this`serial, random
      ensures packages == old(packages) + [owner] && SameTexts(old(packages), packages)
      ensures owner == NewPackage(kind, name, folder, root, old(random.value)) && serial == old(serial) + 1
      ensures random.value == AfterGuid(AfterGuid(old(random.value)))
    {
      serial := serial + 1;
      var namespace := CorpusPlanner.DrawGuid(random);
      var guid := CorpusPlanner.DrawGuid(random);
      owner := Package(kind, name, folder, root + "/" + folder + "/" + name, namespace, guid, "Corpus." + name, []);
      OpenEmpty(packages, owner);
      packages := packages + [owner];
    }

    /** Puts a text into a package with room. */
    method Place(line: Line, p: nat)
      requires Valid() && base <= p < |packages| && HasRoom(packages[p], p, capacities)
      requires Dedicated(line.name) <==> packages[p].folder == CASES
      modifies this`packages
      ensures Valid() && packages == WithText(old(packages), p, line)
      ensures OneMore(old(packages), packages, line)
    {
      PlacePacks(packages, base, capacities, pools, p, line);
      PlaceCounts(packages, p, line);
      var owner := packages[p];
      packages := packages[p := owner.(lines := owner.lines + [PlacedLine(line, owner)])];
    }

    /** A package of its own for one text. */
    method OpenCase(kind: PackageKind, random: Draws, root: string)
      requires Valid()
      modifies this`packages, this`serial, random
      ensures State(random) == WithCase(old(State(random)), kind, root)
    {
      var owner := Open(kind, "Case_" + Decimal(serial), CASES, random, root);
    }

    /** The package for one text: pooled, or one of its own for a case text. */
    method Choose(line: Line, random: Draws, root: string) returns (p: nat)
      requires Valid()
      modifies this, random
      ensures (State(random), p) == ChosenFor(old(State(random)), line, root)
      ensures Valid() && Ready(old(State(random)), State(random), p, base, Dedicated(line.name))
    {
      ghost var start := State(random);
      p := OwnerFor(line.kind, random, root);
      ghost var pooled := State(random);
      assert packages[p].kind == PackageKindOf(line.kind);
      if Dedicated(line.name) {
        OpenCase(packages[p].kind, random, root);
        p := |packages| - 1;
      }
      ChoiceIs(start, pooled, State(random), line, p, root);
      ChoiceKeeps(start, base, line, root);
    }

    /** One moving text: drawn a kind unless it is background, and a package of its own for a case text. */
    method PlaceNext(moving: Line, random: Draws, root: string) returns (p: nat)
      requires Valid()
      modifies this, random
      ensures State(random) == PackNext(old(State(random)), moving, root)
      ensures p == PlaceOf(old(State(random)), moving, root)
      ensures Valid() && Packs(old(State(random)), State(random), p, base, moving)
    {
      ghost var start := State(random);
      var line := DrawKind(moving, random);
      ghost var drawn := State(random);
      p := Choose(line, random, root);
      ghost var chosen := State(random);
      Place(line, p);
      NextIs(start, drawn, chosen, moving, line, p, root);
      NextKeeps(start, base, moving, root);
    }

    /** Every moving text goes into exactly one package, and nothing else changes. */
    method PlaceAll(moving: seq<Line>, random: Draws, root: string)
      requires Valid()
      modifies this, random
      ensures State(random) == PackAll(old(State(random)), moving, root)
      ensures Valid() && packages[..base] == old(packages[..base]) && Stays(old(capacities), capacities)
      ensures TheseMore(old(packages), packages, moving)
    {
      for i := 0 to |moving|
        invariant State(random) == PackAll(old(State(random)), moving[..i], root)
        invariant Valid() && packages[..base] == old(packages[..base]) && Stays(old(capacities), capacities)
        invariant TheseMore(old(packages), packages, moving[..i])
      {
        ghost var before := packages;
        PackSnoc(old(State(random)), moving, i, root);
        var p := PlaceNext(moving[i], random, root);
        MoreAndOne(old(packages), before, packages, moving, i);
        SameBase(before, packages, base, p, moving[i]);
      }
      assert moving[..|moving|] == moving;
    }
  }

  lemma ChosenGoes(before: seq<Package>, chosen: seq<Package>, p: nat, line: Line, moving: Line)
    requires Chosen(before, chosen, p, Dedicated(line.name)) && Core(line) == Core(moving) && line.name == moving.name
    ensures Goes(before, chosen[p := WithLine(chosen[p], line)], p, moving)
  {
    PlacedFits(line, chosen[p]);
  }

  lemma OneMoreMoved(a: seq<Package>, b: seq<Package>, c: seq<Package>, line: Line, moving: Line)
    requires SameTexts(a, b) && OneMore(b, c, line) && Core(line) == Core(moving)
    ensures OneMore(a, c, moving)
  {
  }

  lemma MoreAndOne(a: seq<Package>, b: seq<Package>, c: seq<Package>, moving: seq<Line>, i: nat)
    requires i < |moving| && TheseMore(a, b, moving[..i]) && OneMore(b, c, moving[i])
    ensures TheseMore(a, c, moving[..i + 1])
  {
    forall core
      ensures PlanCopies(c, core) == PlanCopies(a, core) + Copies(moving[..i + 1], core)
    {
      CopiesStep(moving, i, core);
    }
  }

  lemma SameBase(before: seq<Package>, after: seq<Package>, base: nat, p: nat, moving: Line)
    requires Goes(before, after, p, moving) && base <= p && base <= |before|
    ensures after[..base] == before[..base]
  {
  }

  lemma CopiesStep(lines: seq<Line>, i: nat, core: Line)
    requires i < |lines|
    ensures Copies(lines[..i + 1], core) == Copies(lines[..i], core) + (if Core(lines[i]) == core then 1 else 0)
  {
    assert lines[..i + 1] == lines[..i] + [lines[i]];
    CountSnoc(lines[..i], lines[i], IsCore(core));
  }

  lemma OpenEmpty(packages: seq<Package>, owner: Package)
    requires owner.lines == []
    ensures forall core :: PlanCopies(packages + [owner], core) == PlanCopies(packages, core)
    ensures LineCount(packages + [owner]) == LineCount(packages)
  {
    forall core ensures PlanCopies(packages + [owner], core) == PlanCopies(packages, core) {
      PlanCopiesSnoc(packages, owner, core);
    }
    assert (packages + [owner])[..|packages|] == packages;
  }

  // ---------------------------------------------------------------------------------------------
  // The whole placement

  function Visible(original: seq<Package>): (n: nat) {
    LineCount(KeepAll(original)) + |MovedAll(original)|
  }

  method ShuffleTexts(moving: seq<Line>, random: Draws) returns (shuffled: seq<Line>)
    modifies random
    ensures shuffled == Shuffled(moving, old(random.value))
    ensures random.value == AfterShuffle(|moving|, old(random.value))
  {
    var order := new Line[|moving|](i requires 0 <= i < |moving| => moving[i]);
    assert order[..] == moving;
    random.Shuffle(order);
    shuffled := order[..];
  }

  lemma MovingCopies(moved: seq<Line>, background: seq<Line>, value: nat, core: Line)
    ensures Copies(Shuffled(moved + background, value), core) == Copies(moved, core) + Copies(background, core)
  {
    ShufflePermutes(moved + background, value);
    CountPermutation(Shuffled(moved + background, value), moved + background, IsCore(core));
    CountConcat(moved, background, IsCore(core));
  }

  function BackgroundCount(original: seq<Package>, lines: nat): (n: nat) {
    MissingLines(Visible(original), lines)
  }

  /** The background texts of a corpus. */
  function BackgroundOf(original: seq<Package>, lines: nat, seed: nat, value: nat, w: Wording): (r: seq<Line>)
    ensures |r| == BackgroundCount(original, lines)
  {
    BackgroundFrom(Visible(original), BackgroundCount(original, lines), seed, value, w)
  }

  /** The packer with everything still to place, the generator just before the shuffle. */
  function Unplaced(original: seq<Package>, lines: nat, value: nat): (s: Packing) {
    Packing(KeepAll(original), 0, map[], map[], AfterBackground(BackgroundCount(original, lines), value))
  }

  /** The placed corpus, drawn from generator state `value` on. */
  function PlacedCorpus(original: seq<Package>, lines: nat, seed: nat, root: string, value: nat, w: Wording)
    : (s: Packing)
  {
    var moving := MovedAll(original) + BackgroundOf(original, lines, seed, value, w);
    var start := Unplaced(original, lines, value);
    PackAll(start.(value := AfterShuffle(|moving|, start.value)), Shuffled(moving, start.value), root)
  }

  /** What stays, and every other text with the background texts in shuffled order. */
  method GatherMoving(original: seq<Package>, lines: nat, seed: nat, random: Draws, w: Wording)
    returns (kept: seq<Package>, moving: seq<Line>, ghost background: seq<Line>)
    modifies random
    ensures kept == KeepAll(original) && |moving| == |MovedAll(original)| + |background|
    ensures background == BackgroundOf(original, lines, seed, old(random.value), w)
    ensures Numbered(background, Visible(original), seed)
    ensures Gathered(original, kept, moving, background)
    ensures var value := AfterBackground(BackgroundCount(original, lines), old(random.value));
      moving == Shuffled(MovedAll(original) + background, value) && random.value == AfterShuffle(|moving|, value)
  {
    var moved;
    kept, moved := TakeMovable(original);
    ghost var start := random.value;
    var added := AddBackground(random, LineCount(kept) + |moved|, lines, seed, w);
    background := added;
    ghost var value := random.value;
    moving := ShuffleTexts(moved + added, random);
    GatherIs(original, lines, seed, start, w, added, value);
    assert Visible(original) == LineCount(kept) + |moved|;
  }

  lemma GatherIs(original: seq<Package>, lines: nat, seed: nat, start: nat, w: Wording, added: seq<Line>, value: nat)
    requires var visible := LineCount(KeepAll(original)) + |MovedAll(original)|;
      && added == BackgroundFrom(visible, MissingLines(visible, lines), seed, start, w)
      && value == AfterBackground(MissingLines(visible, lines), start)
    ensures added == BackgroundOf(original, lines, seed, start, w)
    ensures value == AfterBackground(BackgroundCount(original, lines), start)
    ensures var moving := Shuffled(MovedAll(original) + added, value);
      |moving| == |MovedAll(original)| + |added| && Gathered(original, KeepAll(original), moving, added)
  {
    ShuffleGathers(original, added, value);
  }

  /** What stays and what moves are the recipes' texts but the scaffolds, and the background texts. */
  ghost predicate Gathered(original: seq<Package>, kept: seq<Package>, moving: seq<Line>, background: seq<Line>) {
    forall core ::
      PlanCopies(kept, core) + Copies(moving, core) == PlannedCopies(original, core) + Copies(background, core)
  }

  lemma ShuffleGathers(original: seq<Package>, added: seq<Line>, value: nat)
    ensures Gathered(original, KeepAll(original), Shuffled(MovedAll(original) + added, value), added)
    ensures |Shuffled(MovedAll(original) + added, value)| == |MovedAll(original)| + |added|
  {
    ShufflePermutes(MovedAll(original) + added, value);
    forall core
      ensures PlanCopies(KeepAll(original), core) + Copies(Shuffled(MovedAll(original) + added, value), core) ==
              PlannedCopies(original, core) + Copies(added, core)
    {
      TakingConserves(original, core);
      MovingCopies(MovedAll(original), added, value, core);
    }
  }

  /**
   * What packing promises of the packages it made: a pooled one holds at most the capacity drawn for it,
   * which lies in the bounds of its kind; any other holds at most one text, a case text; and every text
   * agrees with the package it lies in.
   */
  ghost predicate WithinCapacities(packages: seq<Package>, base: nat, capacities: map<nat, nat>) {
    forall p | base <= p < |packages| ::
      && AllFit(packages[p])
      && (packages[p].folder == MIXED ==>
            p in capacities && CapacityOf(packages[p].kind, capacities[p]) && |packages[p].lines| <= capacities[p])
      && (packages[p].folder != MIXED ==> packages[p].folder == CASES && |packages[p].lines| <= 1)
  }

  lemma PackedWithin(packages: seq<Package>, base: nat, capacities: map<nat, nat>, pools: map<PackageKind, Pool>)
    requires Packed(packages, base, capacities, pools)
    ensures WithinCapacities(packages, base, capacities)
  {
    forall p | base <= p < |packages|
      ensures Capped(packages[p], p, capacities, pools)
    {
    }
  }

  lemma PlacedIs(original: seq<Package>, lines: nat, seed: nat, root: string, start: nat, w: Wording, s: Packing,
                 moving: seq<Line>)
    requires var value := AfterBackground(BackgroundCount(original, lines), start);
      && moving == Shuffled(MovedAll(original) + BackgroundOf(original, lines, seed, start, w), value)
      && s == Packing(KeepAll(original), 0, map[], map[], AfterShuffle(|moving|, value))
    ensures PackAll(s, moving, root) == PlacedCorpus(original, lines, seed, root, start, w)
  {
  }

  /** All texts but the scaffolds and all background texts are placed, copy for copy, and nothing else. */
  ghost predicate Conserved(original: seq<Package>, placed: seq<Package>, background: seq<Line>) {
    forall core :: PlanCopies(placed, core) == PlannedCopies(original, core) + Copies(background, core)
  }

  lemma PlacedConserves(original: seq<Package>, placed: seq<Package>, moving: seq<Line>, background: seq<Line>)
    requires Gathered(original, KeepAll(original), moving, background)
    requires TheseMore(KeepAll(original), placed, moving)
    ensures Conserved(original, placed, background)
  {
  }

  /**
   * What placement promises: what stays, stays; every other text but the scaffolds and every background text
   * is there, copy for copy; no pooled package exceeds its capacity; and the total is as requested.
   */
  ghost predicate WellPlaced(original: seq<Package>, lines: nat, s: Packing, background: seq<Line>) {
    && |original| <= |s.packages| && s.packages[..|original|] == KeepAll(original)
    && WithinCapacities(s.packages, |original|, s.capacities)
    && Conserved(original, s.packages, background)
    && LineCount(s.packages) == (if lines > Visible(original) + 20 then lines else Visible(original) + 20)
  }

  lemma {:induction false} PackAllKeeps(s: Packing, base: nat, moving: seq<Line>, root: string)
    requires Sound(s, base) && base <= |s.packages|
    ensures var r := PackAll(s, moving, root);
      && Sound(r, base) && base <= |r.packages| && r.packages[..base] == s.packages[..base]
      && Stays(s.capacities, r.capacities) && TheseMore(s.packages, r.packages, moving)
  {
    if moving != [] {
      var n := |moving| - 1;
      var before := PackAll(s, moving[..n], root);
      PackAllKeeps(s, base, moving[..n], root);
      NextKeeps(before, base, moving[n], root);
      var after := PackNext(before, moving[n], root);
      assert moving[..n + 1] == moving;
      MoreAndOne(s.packages, before.packages, after.packages, moving, n);
      SameBase(before.packages, after.packages, base, PlaceOf(before, moving[n], root), moving[n]);
    }
  }

  /** Whatever is drawn. */
  lemma PlacementHolds(original: seq<Package>, lines: nat, seed: nat, root: string, value: nat, w: Wording)
    ensures WellPlaced(original, lines, PlacedCorpus(original, lines, seed, root, value, w),
                       BackgroundOf(original, lines, seed, value, w))
  {
    var background := BackgroundOf(original, lines, seed, value, w);
    var v := AfterBackground(BackgroundCount(original, lines), value);
    var moving := Shuffled(MovedAll(original) + background, v);
    var s := Packing(KeepAll(original), 0, map[], map[], AfterShuffle(|moving|, v));
    ShuffleGathers(original, background, v);
    PlacedIs(original, lines, seed, root, value, w, s, moving);
    PackAllKeeps(s, |original|, moving, root);
    AllPlaced(original, lines, PackAll(s, moving, root), moving, background);
  }

  lemma AllPlaced(original: seq<Package>, lines: nat, r: Packing, moving: seq<Line>, background: seq<Line>)
    requires Sound(r, |original|) && |original| <= |r.packages| && r.packages[..|original|] == KeepAll(original)
    requires TheseMore(KeepAll(original), r.packages, moving)
    requires Gathered(original, KeepAll(original), moving, background)
    requires |moving| == |MovedAll(original)| + |background| && |background| == BackgroundCount(original, lines)
    ensures WellPlaced(original, lines, r, background)
  {
    PackedWithin(r.packages, |original|, r.capacities, r.pools);
    PlacedConserves(original, r.packages, moving, background);
  }

  /** From the recipes' packages to the placed corpus. */
  method PlaceCorpus(original: seq<Package>, lines: nat, seed: nat, root: string, random: Draws, w: Wording)
    returns (placer: Placer, ghost background: seq<Line>)
    modifies random
    ensures fresh(placer) && placer.Valid() && placer.base == |original|
    ensures placer.State(random) == PlacedCorpus(original, lines, seed, root, old(random.value), w)
    ensures background == BackgroundOf(original, lines, seed, old(random.value), w)
    ensures Numbered(background, Visible(original), seed)
    ensures WellPlaced(original, lines, placer.State(random), background)
  {
    var kept, moving;
    ghost var start := random.value;
    kept, moving, background := GatherMoving(original, lines, seed, random, w);
    placer := new Placer(kept);
    PlacedIs(original, lines, seed, root, start, w, placer.State(random), moving);
    placer.PlaceAll(moving, random, root);
    PlacementHolds(original, lines, seed, root, start, w);
  }
}
