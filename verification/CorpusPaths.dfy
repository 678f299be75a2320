/**
 * The paths of a placed corpus, distinct for every seed, and with them what its finished plans keep of the
 * package recorded as deleted.
 */
module CorpusPaths {
  import opened CorpusDraws
  import opened CorpusPlan
  import opened CorpusEdits
  import opened CorpusPlacement
  import opened CorpusScaffolds
  import opened CorpusWhole
  import opened CorpusDeletion

  // ---------------------------------------------------------------------------------------------
  // Numbers at the end of a name

  predicate Digits(s: string) {
    forall i | 0 <= i < |s| :: '0' <= s[i] <= '9'
  }

  function Digit(d: nat): char
    requires d < 10
  {
    '0' + d as char
  }

  lemma DigitIs(d: nat)
    requires d < 10
    ensures DIGITS[d] == Digit(d)
  {
  }

  lemma DecimalSnoc(n: nat)
    ensures Decimal(n) == (if n < 10 then [] else Decimal(n / 10)) + [Digit(n % 10)]
  {
    DigitIs(n % 10);
  }

  lemma {:induction false} DecimalDigits(n: nat)
    ensures Decimal(n) != [] && Digits(Decimal(n))
  {
    DecimalSnoc(n);
    if n >= 10 { DecimalDigits(n / 10); }
  }

  lemma SnocEqual<T>(a: seq<T>, x: T, b: seq<T>, y: T)
    requires a + [x] == b + [y]
    ensures a == b && x == y
  {
    assert (a + [x])[|a|] == x && (b + [y])[|b|] == y;
    assert a == (a + [x])[..|a|] == (b + [y])[..|b|] == b;
  }

  /** Numbers spelled alike end alike, and what is left of them is spelled alike. */
  lemma SpelledAlike(a: nat, b: nat)
    requires Decimal(a) == Decimal(b)
    ensures a % 10 == b % 10 && (a < 10 <==> b < 10) && (a >= 10 ==> Decimal(a / 10) == Decimal(b / 10))
  {
    var x, y := if a < 10 then [] else Decimal(a / 10), if b < 10 then [] else Decimal(b / 10);
    DecimalSnoc(a);
    DecimalSnoc(b);
    SnocEqual(x, Digit(a % 10), y, Digit(b % 10));
    DecimalDigits(a / 10);
    DecimalDigits(b / 10);
  }

  lemma SameNumber(a: nat, b: nat)
    requires a / 10 == b / 10 && a % 10 == b % 10
    ensures a == b
  {
  }

  lemma {:induction false} DecimalInjective(a: nat, b: nat)
    requires Decimal(a) == Decimal(b)
    ensures a == b
  {
    SpelledAlike(a, b);
    if a >= 10 {
      DecimalInjective(a / 10, b / 10);
    }
    SameNumber(a, b);
  }

  lemma NoLater(a: string, d: string, i: nat)
    requires Digits(d) && |a| < i < |a| + 1 + |d|
    ensures (a + ['_'] + d)[i] != '_'
  {
    assert (a + ['_'] + d)[i] == d[i - |a| - 1];
  }

  lemma LastUnderscore(a: string, d: string, b: string, e: string)
    requires Digits(d) && Digits(e) && a + ['_'] + d == b + ['_'] + e
    ensures d == e
  {
    var s := a + ['_'] + d;
    assert s == b + ['_'] + e;
    assert s[|a|] == '_' && s[|b|] == '_';
    if |a| < |b| {
      NoLater(a, d, |b|);
    } else if |b| < |a| {
      NoLater(b, e, |a|);
    } else {
      assert d == s[|a| + 1..] == e;
    }
  }

  /** Behind the last underscore stands the number. */
  lemma NumberAtEnd(a: string, m: nat, b: string, n: nat)
    requires a + "_" + Decimal(m) == b + "_" + Decimal(n)
    ensures m == n
  {
    DecimalDigits(m);
    DecimalDigits(n);
    LastUnderscore(a, Decimal(m), b, Decimal(n));
    DecimalInjective(m, n);
  }

  // ---------------------------------------------------------------------------------------------
  // Packed packages

  const WORDS: seq<string> := ["ST", "DT", "BP", "WBP", "Case"]

  /** Package number n of the packing. */
  ghost predicate NumberedAt(owner: Package, root: string, n: nat) {
    exists folder, word | folder in [MIXED, CASES] && word in WORDS ::
      owner.path == root + "/" + folder + "/" + (word + "_" + Decimal(n))
  }

  /** The packages from before keep their paths, and those packed since are numbered. */
  ghost predicate PathsOf(s: Packing, root: string, first: seq<Package>) {
    && |first| <= |s.packages| && s.serial == |s.packages| - |first|
    && (forall p | 0 <= p < |first| :: s.packages[p].path == first[p].path)
    && forall p | |first| <= p < |s.packages| :: NumberedAt(s.packages[p], root, p - |first|)
  }

  lemma NewIsNumbered(kind: PackageKind, word: string, folder: string, root: string, n: nat, value: nat)
    requires folder in [MIXED, CASES] && word in WORDS
    ensures NumberedAt(NewPackage(kind, word + "_" + Decimal(n), folder, root, value), root, n)
  {
  }

  lemma PathsSnoc(s: Packing, r: Packing, root: string, first: seq<Package>, owner: Package)
    requires PathsOf(s, root, first) && NumberedAt(owner, root, s.serial)
    requires r.packages == s.packages + [owner] && r.serial == s.serial + 1
    ensures PathsOf(r, root, first)
  {
    forall p | |first| <= p < |r.packages|
      ensures NumberedAt(r.packages[p], root, p - |first|)
    {
      if p < |s.packages| {
        assert NumberedAt(s.packages[p], root, p - |first|);
      }
    }
  }

  lemma PoolPaths(s: Packing, kind: PackageKind, root: string, first: seq<Package>)
    requires PathsOf(s, root, first)
    ensures PathsOf(WithPool(s, kind, root), root, first)
  {
    if !HasOpen(s, kind) {
      assert WORDS[0] in WORDS && WORDS[1] in WORDS && WORDS[2] in WORDS && WORDS[3] in WORDS;
      NewIsNumbered(kind, Prefix(kind), MIXED, root, s.serial, s.value);
      PathsSnoc(s, WithPool(s, kind, root), root, first,
                NewPackage(kind, Prefix(kind) + "_" + Decimal(s.serial), MIXED, root, s.value));
    }
  }

  lemma CasePaths(s: Packing, kind: PackageKind, root: string, first: seq<Package>)
    requires PathsOf(s, root, first)
    ensures PathsOf(WithCase(s, kind, root), root, first)
  {
    assert WORDS[4] in WORDS;
    assert "Case_" + Decimal(s.serial) == "Case" + "_" + Decimal(s.serial);
    NewIsNumbered(kind, "Case", CASES, root, s.serial, s.value);
    PathsSnoc(s, WithCase(s, kind, root), root, first,
              NewPackage(kind, "Case_" + Decimal(s.serial), CASES, root, s.value));
  }

  lemma TextPaths(s: Packing, p: nat, line: Line, root: string, first: seq<Package>)
    requires PathsOf(s, root, first)
    ensures PathsOf(s.(packages := WithText(s.packages, p, line)), root, first)
  {
    var r := s.(packages := WithText(s.packages, p, line));
    forall q | |first| <= q < |r.packages|
      ensures NumberedAt(r.packages[q], root, q - |first|)
    {
      assert NumberedAt(s.packages[q], root, q - |first|) && r.packages[q].path == s.packages[q].path;
    }
  }

  lemma NextPaths(s: Packing, moving: Line, root: string, first: seq<Package>)
    requires PathsOf(s, root, first)
    ensures PathsOf(PackNext(s, moving, root), root, first)
  {
    var line := KindDrawn(moving, s.value);
    var drawn := s.(value := AfterKind(moving, s.value));
    var kind := PackageKindOf(line.kind);
    PoolPaths(drawn, kind, root, first);
    if Dedicated(line.name) {
      CasePaths(WithPool(drawn, kind, root), kind, root, first);
    }
    var (chosen, p) := ChosenFor(drawn, line, root);
    TextPaths(chosen, p, line, root, first);
  }

  lemma {:induction false} AllPaths(s: Packing, moving: seq<Line>, root: string, first: seq<Package>)
    requires PathsOf(s, root, first)
    ensures PathsOf(PackAll(s, moving, root), root, first)
  {
    if moving != [] {
      AllPaths(s, moving[..|moving| - 1], root, first);
      NextPaths(PackAll(s, moving[..|moving| - 1], root), moving[|moving| - 1], root, first);
    }
  }

  // ---------------------------------------------------------------------------------------------
  // Distinct paths

  /** The folders the planner itself puts packages into. */
  ghost predicate Outside(path: string, root: string) {
    !(root + "/Mixed/" <= path) && !(root + "/Cases/" <= path) && !(root + EDITS <= path)
  }

  /** The recipes' own packages: distinct, and in folders of their own. */
  ghost predicate RecipePaths(packages: seq<Package>, root: string) {
    DistinctPaths(packages) && forall p | 0 <= p < |packages| :: Outside(packages[p].path, root)
  }

  /** Whatever lies in one of the two folders. */
  lemma FolderInside(root: string, folder: string, tail: string)
    requires folder == MIXED || folder == CASES
    ensures var path := root + "/" + folder + "/" + tail;
      (root + "/Mixed/" <= path || root + "/Cases/" <= path) && !(root + EDITS <= path)
  {
    var front := root + "/" + folder + "/";
    var path := front + tail;
    assert path[..|front|] == front;
    assert front[|root| + 1] == folder[0] && (root + EDITS)[|root| + 1] == EDITS[1];
    assert folder[0] != EDITS[1];
    if folder == MIXED {
      assert front == root + "/Mixed/";
    } else {
      assert front == root + "/Cases/";
    }
  }

  lemma NumberedInside(owner: Package, root: string, n: nat)
    requires NumberedAt(owner, root, n)
    ensures root + "/Mixed/" <= owner.path || root + "/Cases/" <= owner.path
    ensures !(root + EDITS <= owner.path)
    ensures exists a :: owner.path == a + "_" + Decimal(n)
  {
    var folder, word :| folder in [MIXED, CASES] && word in WORDS &&
      owner.path == root + "/" + folder + "/" + (word + "_" + Decimal(n));
    FolderInside(root, folder, word + "_" + Decimal(n));
    AtEnd(root + "/" + folder + "/", word, Decimal(n));
  }

  lemma AtEnd(front: string, word: string, digits: string)
    ensures front + (word + "_" + digits) == (front + word) + "_" + digits
  {
  }

  lemma NumbersDiffer(a: Package, m: nat, b: Package, n: nat, root: string)
    requires NumberedAt(a, root, m) && NumberedAt(b, root, n) && m != n
    ensures a.path != b.path
  {
    NumberedInside(a, root, m);
    NumberedInside(b, root, n);
    var x :| a.path == x + "_" + Decimal(m);
    var y :| b.path == y + "_" + Decimal(n);
    if a.path == b.path {
      NumberAtEnd(x, m, y, n);
    }
  }

  lemma PackedPaths(s: Packing, root: string, first: seq<Package>)
    requires PathsOf(s, root, first) && RecipePaths(first, root)
    ensures OwnPaths(s.packages, root)
  {
    forall p, q | 0 <= p < q < |s.packages|
      ensures s.packages[p].path != s.packages[q].path
    {
      if p >= |first| {
        NumbersDiffer(s.packages[p], p - |first|, s.packages[q], q - |first|, root);
      } else if q >= |first| {
        NumberedInside(s.packages[q], root, q - |first|);
        assert Outside(first[p].path, root);
      }
    }
    forall p | 0 <= p < |s.packages|
      ensures !(root + EDITS <= s.packages[p].path)
    {
      if p >= |first| {
        NumberedInside(s.packages[p], root, p - |first|);
      } else {
        assert Outside(first[p].path, root);
      }
    }
  }

  lemma {:induction false} KeepPaths(original: seq<Package>, p: nat)
    requires p < |original|
    ensures KeepAll(original)[p] == KeepOf(original[p])
  {
    if p < |original| - 1 { KeepPaths(original[..|original| - 1], p); }
  }

  lemma {:induction false} DressedAt(packages: seq<Package>, value: nat, marks: map<string, Mark>, p: nat)
    requires p < |packages|
    ensures var r := DressedAll(packages, value, marks)[p];
      r.path == packages[p].path && r.kind == packages[p].kind && (r.lines == [] <==> packages[p].lines == [])
  {
    if p < |packages| - 1 {
      DressedAt(packages[..|packages| - 1], value, marks, p);
    }
  }

  /** The paths of the planner's corpus are distinct and none is one of the edits, for every seed. */
  lemma PlannerPaths(original: seq<Package>, lines: nat, inputs: Inputs)
    requires RecipePaths(original, inputs.root)
    ensures OwnPaths(Placement(original, lines, inputs).packages, inputs.root)
    ensures OwnPaths(Corpus(original, lines, inputs), inputs.root)
  {
    var value := inputs.seed % WORD;
    var background := BackgroundOf(original, lines, inputs.seed, value, inputs.wording);
    var v := AfterBackground(BackgroundCount(original, lines), value);
    var moving := Shuffled(MovedAll(original) + background, v);
    var start := Packing(KeepAll(original), 0, map[], map[], AfterShuffle(|moving|, v));
    forall p | 0 <= p < |original|
      ensures start.packages[p].path == original[p].path
    {
      KeepPaths(original, p);
    }
    AllPaths(start, moving, inputs.root, original);
    PlacedIs(original, lines, inputs.seed, inputs.root, value, inputs.wording, start, moving);
    PackedPaths(Placement(original, lines, inputs), inputs.root, original);
    DressedPaths(Placement(original, lines, inputs).packages, Placement(original, lines, inputs).value,
                 MarksOf(FirstScaffold(original)), inputs.root);
  }

  lemma DressedPaths(packages: seq<Package>, value: nat, marks: map<string, Mark>, root: string)
    requires OwnPaths(packages, root)
    ensures OwnPaths(DressedAll(packages, value, marks), root)
  {
    forall p | 0 <= p < |packages|
      ensures DressedAll(packages, value, marks)[p].path == packages[p].path
    {
      DressedAt(packages, value, marks, p);
    }
  }

  // ---------------------------------------------------------------------------------------------
  // Tables emptied by placement

  lemma {:induction false} FilterEmpty<S>(s: seq<S>, keep: S -> bool)
    ensures Filter(s, keep) == [] <==> forall i | 0 <= i < |s| :: !keep(s[i])
  {
    if s != [] {
      var n := |s| - 1;
      FilterEmpty(s[..n], keep);
      assert forall i | 0 <= i < n :: s[..n][i] == s[i];
    }
  }

  /** A recipe package all of whose texts move or are scaffolds. */
  predicate AllMove(owner: Package) {
    forall l | 0 <= l < |owner.lines| :: Movable(owner.lines[l], owner.lines) || owner.lines[l].mode.Scaffold?
  }

  /** Placement empties exactly the recipe packages all of whose texts move or are scaffolds. */
  lemma EmptiedByPlacement(original: seq<Package>, lines: nat, inputs: Inputs, p: nat)
    requires p < |original|
    ensures var corpus := Corpus(original, lines, inputs);
      && p < |corpus| && corpus[p].path == original[p].path && corpus[p].kind == original[p].kind
      && (corpus[p].lines == [] <==> AllMove(original[p]))
  {
    var s := Placement(original, lines, inputs);
    PlacementHolds(original, lines, inputs.seed, inputs.root, inputs.seed % WORD, inputs.wording);
    KeepPaths(original, p);
    assert s.packages[p] == s.packages[..|original|][p];
    DressedAt(s.packages, s.value, MarksOf(FirstScaffold(original)), p);
    var all := original[p].lines;
    FilterEmpty(all, line => !Movable(line, all) && !line.mode.Scaffold?);
  }

  /**
   * For every seed, wording and number of lines, and recipes with their own distinct paths: the planner's two
   * plans have a package of the path recorded as deleted if and only if it is not that of an emptied table.
   */
  lemma PlannerDeletion(original: seq<Package>, lines: nat, phase: Phase, inputs: Inputs)
    requires WellMadeAll(original) && RecipePaths(original, inputs.root)
    ensures var corpus := Corpus(original, lines, inputs);
      && Finish(corpus, phase, inputs).Some?
      && var plan := Finish(corpus, phase, inputs).value;
      && |plan.edits.deleted| == 1
      && (HasPath(plan.packages, plan.edits.deleted[0]) <==> !Emptied(corpus, plan.edits.deleted[0]))
  {
    var s := Placement(original, lines, inputs);
    PlacementWellMade(original, lines, inputs);
    DressingKeepsWellMade(s.packages, s.value, MarksOf(FirstScaffold(original)));
    FinishSucceeds(Corpus(original, lines, inputs), phase, inputs);
    PlannerPaths(original, lines, inputs);
    DeletedIsPlanned(Corpus(original, lines, inputs), phase, inputs);
  }
}
