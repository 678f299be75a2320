/** The two phases of one corpus, compared: the same edits, and nothing different outside them. */
module CorpusLockstep {
  import opened CorpusDraws
  import opened CorpusPlan
  import opened CorpusEdits

  // ---------------------------------------------------------------------------------------------
  // How two plans may differ

  ghost predicate SameShell(a: Package, b: Package) {
    b == a.(lines := b.lines) && |a.lines| == |b.lines|
  }

  /** The same package with the same keys in the same places. */
  ghost predicate Twin(a: Package, b: Package) {
    SameShell(a, b) && forall l | 0 <= l < |a.lines| :: a.lines[l].key == b.lines[l].key
  }

  /** Everything the edit plan looks at is the same. */
  ghost predicate AlikeLine(a: Line, b: Line) {
    a.key == b.key && a.name == b.name && a.template == b.template && a.token == b.token &&
    a.marks.Keys == b.marks.Keys
  }

  ghost predicate Alike(a: Package, b: Package) {
    SameShell(a, b) && forall l | 0 <= l < |a.lines| :: AlikeLine(a.lines[l], b.lines[l])
  }

  ghost predicate AlikeAll(a: seq<Package>, b: seq<Package>) {
    |a| == |b| && forall p | 0 <= p < |a| :: Alike(a[p], b[p])
  }

  /** Package by package the same keys, and the same texts wherever the path is not named. */
  ghost predicate Accounts(a: seq<Package>, b: seq<Package>, named: set<string>) {
    |a| == |b| && forall p | 0 <= p < |a| :: Account(a[p], b[p], named)
  }

  function Names(s: seq<string>): (r: set<string>) {
    set i | 0 <= i < |s| :: s[i]
  }

  /** The paths the edit record names: changed, added or deleted. */
  function Named(edits: Edits): (r: set<string>) {
    Names(edits.packages) + Names(edits.deleted)
  }

  lemma AccountsMore(a: seq<Package>, b: seq<Package>, named: set<string>, more: set<string>)
    requires Accounts(a, b, named) && named <= more
    ensures Accounts(a, b, more)
  {
  }

  ghost predicate Account(a: Package, b: Package, named: set<string>) {
    Twin(a, b) && (a.path !in named ==> a == b)
  }

  lemma AccountsSnoc(a: seq<Package>, b: seq<Package>, named: set<string>, x: Package, y: Package)
    requires Accounts(a, b, named) && Account(x, y, named)
    ensures Accounts(a + [x], b + [y], named)
  {
  }

  lemma AccountsInit(a: seq<Package>, b: seq<Package>, named: set<string>)
    requires Accounts(a, b, named) && a != []
    ensures b != [] && Accounts(a[..|a| - 1], b[..|b| - 1], named) && Account(a[|a| - 1], b[|b| - 1], named)
  {
  }

  lemma AlikeSnoc(a: seq<Package>, b: seq<Package>, x: Package)
    requires AlikeAll(a, b)
    ensures AlikeAll(a + [x], b + [x])
  {
  }

  // ---------------------------------------------------------------------------------------------
  // The conflict edits

  lemma SettleAlike(owner: Package)
    ensures Alike(SettlePackage(owner, Initial), SettlePackage(owner, After))
    ensures !HasConflict(owner.lines) ==> SettlePackage(owner, After) == SettlePackage(owner, Initial)
  {
  }

  lemma {:induction false} SettleNames(packages: seq<Package>, edits: Edits, p: nat)
    requires p < |packages| && HasConflict(packages[p].lines)
    ensures packages[p].path in SettleAllEdits(packages, edits).packages
  {
    var n := |packages| - 1;
    if p < n {
      assert packages[..n][p] == packages[p];
      SettleNames(packages[..n], edits, p);
    }
  }

  lemma SettleAccounts(packages: seq<Package>, edits: Edits)
    ensures AlikeAll(SettleAll(packages, Initial), SettleAll(packages, After))
    ensures Accounts(SettleAll(packages, Initial), SettleAll(packages, After),
                     Names(SettleAllEdits(packages, edits).packages))
  {
    var a, b := SettleAll(packages, Initial), SettleAll(packages, After);
    var named := SettleAllEdits(packages, edits).packages;
    forall p | 0 <= p < |a|
      ensures Alike(a[p], b[p]) && Twin(a[p], b[p]) && (a[p].path !in Names(named) ==> a[p] == b[p])
    {
      SettleAlike(packages[p]);
      if HasConflict(packages[p].lines) {
        SettleNames(packages, edits, p);
      }
    }
  }

  // ---------------------------------------------------------------------------------------------
  // The same candidates and draws

  lemma {:induction false} SameCandidatesIn(a: Package, b: Package, p: nat, n: nat)
    requires Alike(a, b) && n <= |a.lines|
    ensures CandidatesIn(a, p, n) == CandidatesIn(b, p, n)
  {
    if n > 0 {
      assert AlikeLine(a.lines[n - 1], b.lines[n - 1]);
      SameCandidatesIn(a, b, p, n - 1);
    }
  }

  lemma {:induction false} SameCandidates(a: seq<Package>, b: seq<Package>)
    requires AlikeAll(a, b)
    ensures Candidates(a) == Candidates(b)
  {
    if a != [] {
      var n := |a| - 1;
      SameCandidates(a[..n], b[..n]);
      SameCandidatesIn(a[n], b[n], n, |a[n].lines|);
    }
  }

  lemma SameDraws(a: seq<Package>, b: seq<Package>, value: nat)
    requires Candidates(a) == Candidates(b) && |a| == |b|
    ensures DrawnTexts(a, value) == DrawnTexts(b, value) && AfterTexts(a, value) == AfterTexts(b, value)
  {
    assert ProbedPlaces(a) == ProbedPlaces(b) && AfterProbe(a, value) == AfterProbe(b, value);
  }

  lemma SameProbe(a: seq<Package>, b: seq<Package>, named: set<string>, value: nat, inputs: Inputs)
    requires AlikeAll(a, b) && Accounts(a, b, named) && Candidates(a) == Candidates(b)
    ensures AlikeAll(Probed(a, inputs.root, inputs.seed, value, inputs.wording),
                     Probed(b, inputs.root, inputs.seed, value, inputs.wording))
    ensures Accounts(Probed(a, inputs.root, inputs.seed, value, inputs.wording),
                     Probed(b, inputs.root, inputs.seed, value, inputs.wording), named)
  {
    var found := |Candidates(a)|;
    if found < 3 {
      var probe := EditProbe(found, inputs.root, inputs.seed, value, inputs.wording);
      AccountsSnoc(a, b, named, probe, probe);
      AlikeSnoc(a, b, probe);
    }
  }

  lemma SameEditable(a: seq<Package>, b: seq<Package>, e: TextEdits)
    requires AlikeAll(a, b)
    ensures Tokened(a, e) <==> Tokened(b, e)
    ensures Tokened(a, e) ==> (Marked(a, e) <==> Marked(b, e))
  {
    SameTokenedAt(a, b, e.source);
    SameTokenedAt(a, b, e.po);
    SameTokenedAt(a, b, e.archive);
  }

  lemma SameTokenedAt(a: seq<Package>, b: seq<Package>, at: Place)
    requires AlikeAll(a, b)
    ensures TokenedAt(a, at) <==> TokenedAt(b, at)
    ensures InPlan(a, at) ==> AlikeLine(At(a, at), At(b, at)) && a[at.owner].path == b[at.owner].path
  {
    if at.owner < |a| {
      assert Alike(a[at.owner], b[at.owner]);
      if at.line < |a[at.owner].lines| { assert AlikeLine(At(a, at), At(b, at)); }
    }
  }

  lemma SameRegister(a: seq<Package>, b: seq<Package>, e: TextEdits, edits: Edits)
    requires AlikeAll(a, b) && Tokened(a, e) && Tokened(b, e)
    ensures RegisterTexts(a, e, edits) == RegisterTexts(b, e, edits)
  {
    SameTokenedAt(a, b, e.source);
    SameTokenedAt(a, b, e.po);
    SameTokenedAt(a, b, e.archive);
  }

  // ---------------------------------------------------------------------------------------------
  // The text edits stay inside the named packages

  lemma RegisterNames(edits: Edits, kind: string, owner: Package, line: Line, value: string)
    ensures var r := Register(edits, kind, owner, line, value);
            Names(r.packages) == Names(edits.packages) + {owner.path} && r.deleted == edits.deleted
  {
    var r := Register(edits, kind, owner, line, value);
    if owner.path in edits.packages {
      var i :| 0 <= i < |edits.packages| && edits.packages[i] == owner.path;
      assert owner.path in Names(edits.packages);
    } else {
      NamesSnoc(edits.packages, owner.path);
    }
  }

  lemma NamesSnoc(s: seq<string>, x: string)
    ensures Names(s + [x]) == Names(s) + {x}
  {
    forall y ensures y in Names(s + [x]) <==> y in Names(s) + {x} {
      if y in Names(s) {
        var i :| 0 <= i < |s| && s[i] == y;
        assert (s + [x])[i] == y;
      }
      assert (s + [x])[|s|] == x;
    }
  }

  lemma RegisterTextsNames(packages: seq<Package>, e: TextEdits, edits: Edits)
    requires Tokened(packages, e)
    ensures Names(RegisterTexts(packages, e, edits).packages) ==
            Names(edits.packages) +
            {packages[e.source.owner].path, packages[e.po.owner].path, packages[e.archive.owner].path}
    ensures RegisterTexts(packages, e, edits).deleted == edits.deleted
  {
    var one := Register(edits, "source", packages[e.source.owner], At(packages, e.source),
                        "Reef " + TokenAt(packages, e.source));
    var two := Register(one, "po", packages[e.po.owner], At(packages, e.po), "Import " + TokenAt(packages, e.po));
    RegisterNames(edits, "source", packages[e.source.owner], At(packages, e.source),
                  "Reef " + TokenAt(packages, e.source));
    RegisterNames(one, "po", packages[e.po.owner], At(packages, e.po), "Import " + TokenAt(packages, e.po));
    RegisterNames(two, "archive", packages[e.archive.owner], At(packages, e.archive),
                  "Archiv " + TokenAt(packages, e.archive));
  }

  lemma ReplaceAccounts(a: seq<Package>, b: seq<Package>, named: set<string>, at: Place, line: Line)
    requires Accounts(a, b, named) && InPlan(b, at) && line.key == At(b, at).key
    ensures Accounts(a, Replace(b, at, line), named + {a[at.owner].path})
  {
    var r := Replace(b, at, line);
    forall p | 0 <= p < |a|
      ensures Twin(a[p], r[p]) && (a[p].path !in named + {a[at.owner].path} ==> a[p] == r[p])
    {
      assert Twin(a[p], b[p]);
    }
  }

  lemma ApplyAccounts(a: seq<Package>, b: seq<Package>, named: set<string>, e: TextEdits)
    requires Accounts(a, b, named) && Tokened(b, e) && Marked(b, e)
    ensures Accounts(a, ApplyTexts(b, e),
                     named + {a[e.source.owner].path} + {a[e.po.owner].path} + {a[e.archive.owner].path})
  {
    var source := EditSource(At(b, e.source), "Reef " + TokenAt(b, e.source));
    var one := Replace(b, e.source, source);
    ReplaceAccounts(a, b, named, e.source, source);
    var po := EditPo(At(b, e.po), e.culture, "Import " + TokenAt(b, e.po));
    var two := Replace(one, e.po, po);
    assert At(one, e.po) == At(b, e.po);
    ReplaceAccounts(a, one, named + {a[e.source.owner].path}, e.po, po);
    assert At(two, e.archive) == At(b, e.archive);
    ReplaceAccounts(a, two, named + {a[e.source.owner].path} + {a[e.po.owner].path}, e.archive,
                    EditArchive(At(b, e.archive), e.culture, "Archiv " + TokenAt(b, e.archive)));
  }

  // ---------------------------------------------------------------------------------------------
  // The same package is deleted

  lemma SameDeletable(a: Package, b: Package, named: seq<string>)
    requires Account(a, b, Names(named))
    ensures Deletable(a, named) <==> Deletable(b, named)
  {
    if a.path in named {
      assert b.path in named;
    } else {
      assert a.path !in Names(named);
    }
  }

  lemma {:induction false} SameDeletables(a: seq<Package>, b: seq<Package>, named: seq<string>)
    requires Accounts(a, b, Names(named))
    ensures Deletables(a, named) == Deletables(b, named)
  {
    if a != [] {
      AccountsInit(a, b, Names(named));
      SameDeletables(a[..|a| - 1], b[..|b| - 1], named);
      SameDeletable(a[|a| - 1], b[|b| - 1], named);
    }
  }

  lemma DeleteAccounts(a: seq<Package>, b: seq<Package>, named: set<string>, p: nat)
    requires Accounts(a, b, named) && p < |a|
    ensures Accounts(a, DeleteAt(b, p), named + {a[p].path})
  {
    var r := DeleteAt(b, p);
    forall q | 0 <= q < |a| ensures Account(a[q], r[q], named + {a[p].path}) {
      assert Account(a[q], b[q], named);
    }
  }

  lemma SameDeletion(a: seq<Package>, b: seq<Package>, named: seq<string>, value: nat, inputs: Inputs)
    requires Accounts(a, b, Names(named))
    ensures var r := Deletion(a, named, inputs.root, inputs.seed, value, inputs.wording);
            var s := Deletion(b, named, inputs.root, inputs.seed, value, inputs.wording);
            r.1 == s.1 && Accounts(r.0, s.0, Names(named)) && r.0[r.1].path == s.0[s.1].path
    ensures AfterDeletion(a, named, value) == AfterDeletion(b, named, value)
  {
    SameDeletables(a, b, named);
    var probe := DeleteProbe(inputs.root, inputs.seed, Next(value), inputs.wording);
    AccountsSnoc(a, b, Names(named), probe, probe);
    var r := Deletion(a, named, inputs.root, inputs.seed, value, inputs.wording);
    var s := Deletion(b, named, inputs.root, inputs.seed, value, inputs.wording);
    assert Account(r.0[r.1], s.0[r.1], Names(named));
  }

  /** What the two plans of one corpus have in common. */
  ghost predicate Lockstep(a: Plan, b: Plan) {
    && a.edits == b.edits
    && |b.packages| == |a.packages| + 1
    && Accounts(a.packages, b.packages[..|a.packages|], Named(a.edits))
    && a.edits.packages != []
    && b.packages[|a.packages|].path == a.edits.packages[|a.edits.packages| - 1]
    && 1 <= |b.packages[|a.packages|].lines| <= 4
  }

  lemma RestLockstep(a: seq<Package>, b: seq<Package>, edits: Edits, value: nat, inputs: Inputs)
    requires Accounts(a, b, Names(edits.packages))
    ensures Lockstep(EditRest(a, edits, value, Initial, inputs), EditRest(b, edits, value, After, inputs))
  {
    SameDeletion(a, b, edits.packages, value, inputs);
    var x := Deletion(a, edits.packages, inputs.root, inputs.seed, value, inputs.wording);
    var y := Deletion(b, edits.packages, inputs.root, inputs.seed, value, inputs.wording);
    var v := AfterDeletion(a, edits.packages, value);
    LockstepParts(x.0, y.0, x.1, edits, AddedPackage(inputs.root, inputs.seed, v, inputs.wording), AddedKind(v),
                  inputs.target);
  }

  lemma LockstepParts(x: seq<Package>, y: seq<Package>, p: nat, edits: Edits, added: Package, kind: SourceKind,
                      target: string)
    requires Accounts(x, y, Names(edits.packages)) && p < |x| && 1 <= |added.lines| <= 4
    ensures Lockstep(Plan(x, RestEdits(edits, x[p], added, kind, target)),
                     Plan(DeleteAt(y, p) + [added], RestEdits(edits, x[p], added, kind, target)))
  {
    var all := RestEdits(edits, x[p], added, kind, target);
    DeleteAccounts(x, y, Names(edits.packages), p);
    RestNames(edits, x[p], all);
    AccountsMore(x, DeleteAt(y, p), Names(edits.packages) + {x[p].path}, Named(all));
    assert (DeleteAt(y, p) + [added])[..|x|] == DeleteAt(y, p);
  }

  lemma RestNames(edits: Edits, deleted: Package, all: Edits)
    requires edits.packages <= all.packages && all.deleted == edits.deleted + [deleted.path]
    ensures Names(edits.packages) + {deleted.path} <= Named(all)
  {
    NamesSnoc(edits.deleted, deleted.path);
    forall x | x in Names(edits.packages) ensures x in Names(all.packages) {
      var i :| 0 <= i < |edits.packages| && edits.packages[i] == x;
      assert all.packages[i] == x;
    }
  }

  lemma TextsLockstep(x: seq<Package>, y: seq<Package>, e: TextEdits, edits: Edits)
    requires AlikeAll(x, y) && Accounts(x, y, Names(edits.packages))
    requires Tokened(x, e) && Tokened(y, e) && Marked(y, e)
    ensures RegisterTexts(x, e, edits) == RegisterTexts(y, e, edits)
    ensures Accounts(x, ApplyTexts(y, e), Names(RegisterTexts(x, e, edits).packages))
  {
    SameRegister(x, y, e, edits);
    RegisterTextsNames(x, e, edits);
    ApplyAccounts(x, y, Names(edits.packages), e);
    AccountsMore(x, ApplyTexts(y, e), Names(edits.packages) + {x[e.source.owner].path} + {x[e.po.owner].path} +
                 {x[e.archive.owner].path}, Names(RegisterTexts(x, e, edits).packages));
  }

  /** The texts an edit plan draws, in the plan with its probe, have tokens. */
  predicate TokensDrawn(packages: seq<Package>, value: nat, inputs: Inputs) {
    Tokened(Probed(packages, inputs.root, inputs.seed, value, inputs.wording), DrawnTexts(packages, value))
  }

  /** And the two translated ones have the drawn culture. */
  predicate MarksDrawn(packages: seq<Package>, value: nat, inputs: Inputs) {
    && TokensDrawn(packages, value, inputs)
    && Marked(Probed(packages, inputs.root, inputs.seed, value, inputs.wording), DrawnTexts(packages, value))
  }

  /**
   * The edit plans of two alike plans: the first phase succeeds exactly when the drawn texts have tokens,
   * the later one exactly when they also have the drawn culture, and then they run in lockstep.
   */
  lemma EditLockstep(a: seq<Package>, b: seq<Package>, edits: Edits, value: nat, inputs: Inputs)
    requires AlikeAll(a, b) && Accounts(a, b, Names(edits.packages))
    ensures EditPlan(a, edits, value, Initial, inputs).Some? <==> TokensDrawn(a, value, inputs)
    ensures EditPlan(b, edits, value, After, inputs).Some? <==> MarksDrawn(a, value, inputs)
    ensures MarksDrawn(a, value, inputs) ==>
            Lockstep(EditPlan(a, edits, value, Initial, inputs).value, EditPlan(b, edits, value, After, inputs).value)
  {
    var x := Probed(a, inputs.root, inputs.seed, value, inputs.wording);
    var y := Probed(b, inputs.root, inputs.seed, value, inputs.wording);
    var e := DrawnTexts(a, value);
    SameCandidates(a, b);
    SameDraws(a, b, value);
    SameProbe(a, b, Names(edits.packages), value, inputs);
    SameEditable(x, y, e);
    EditPlanExactly(a, edits, value, Initial, inputs);
    EditPlanExactly(b, edits, value, After, inputs);
    if MarksDrawn(a, value, inputs) {
      EditsLockstep(x, y, e, edits, AfterTexts(a, value), inputs);
    }
  }

  lemma EditsLockstep(x: seq<Package>, y: seq<Package>, e: TextEdits, edits: Edits, value: nat, inputs: Inputs)
    requires AlikeAll(x, y) && Accounts(x, y, Names(edits.packages))
    requires Tokened(x, e) && Tokened(y, e) && Marked(y, e)
    ensures Lockstep(EditRest(x, RegisterTexts(x, e, edits), value, Initial, inputs),
                     EditRest(ApplyTexts(y, e), RegisterTexts(y, e, edits), value, After, inputs))
  {
    TextsLockstep(x, y, e, edits);
    RestLockstep(x, ApplyTexts(y, e), RegisterTexts(x, e, edits), value, inputs);
  }

  // ---------------------------------------------------------------------------------------------
  // The kept packages

  lemma {:induction false} NonEmptyAccounts(a: seq<Package>, b: seq<Package>, named: set<string>)
    requires Accounts(a, b, named)
    ensures Accounts(NonEmpty(a), NonEmpty(b), named)
  {
    if a != [] {
      var n := |a| - 1;
      AccountsInit(a, b, named);
      NonEmptyAccounts(a[..n], b[..n], named);
      if a[n].lines != [] {
        AccountsSnoc(NonEmpty(a[..n]), NonEmpty(b[..n]), named, a[n], b[n]);
      }
    }
  }

  lemma {:induction false} SameLineCount(a: seq<Package>, b: seq<Package>, named: set<string>)
    requires Accounts(a, b, named)
    ensures LineCount(a) == LineCount(b)
  {
    if a != [] {
      AccountsInit(a, b, named);
      SameLineCount(a[..|a| - 1], b[..|b| - 1], named);
    }
  }

  /**
   * For every seed, wording and corpus: the first phase succeeds exactly when the drawn texts have tokens,
   * the later one exactly when the two translated ones also have the drawn culture; where both do, they
   * record the same edits, the later plan is the earlier one, key by key and in order, plus one added
   * package, and every package the record does not name is the same in both.
   */
  lemma PhasesInLockstep(packages: seq<Package>, inputs: Inputs)
    ensures var a, value := SettleAll(packages, Initial), EditSeed(inputs.seed);
      && (Finish(packages, Initial, inputs).Some? <==> TokensDrawn(a, value, inputs))
      && (Finish(packages, After, inputs).Some? <==> MarksDrawn(a, value, inputs))
    ensures Finish(packages, After, inputs).Some? ==> Finish(packages, Initial, inputs).Some?
    ensures Finish(packages, After, inputs).Some? ==>
            Lockstep(Finish(packages, Initial, inputs).value, Finish(packages, After, inputs).value)
    ensures Finish(packages, After, inputs).Some? ==>
            var a := Finish(packages, Initial, inputs).value.packages;
            var b := Finish(packages, After, inputs).value.packages;
            LineCount(b) == LineCount(a) + |b[|a|].lines|
  {
    var edits := SettleAllEdits(packages, NO_EDITS);
    var a, b := SettleAll(packages, Initial), SettleAll(packages, After);
    SettleAccounts(packages, NO_EDITS);
    EditLockstep(a, b, edits, EditSeed(inputs.seed), inputs);
    var x := EditPlan(a, edits, EditSeed(inputs.seed), Initial, inputs);
    var y := EditPlan(b, edits, EditSeed(inputs.seed), After, inputs);
    if y.Some? {
      KeptLockstep(x.value, y.value);
    }
  }

  lemma KeptLockstep(a: Plan, b: Plan)
    requires Lockstep(a, b)
    ensures Lockstep(Plan(NonEmpty(a.packages), a.edits), Plan(NonEmpty(b.packages), b.edits))
    ensures var x, y := NonEmpty(a.packages), NonEmpty(b.packages); LineCount(y) == LineCount(x) + |y[|x|].lines|
  {
    var n := |a.packages|;
    var x, y, kept := NonEmpty(a.packages), NonEmpty(b.packages), NonEmpty(b.packages[..n]);
    NonEmptyAccounts(a.packages, b.packages[..n], Named(a.edits));
    SameLineCount(x, kept, Named(a.edits));
    assert y == kept + [b.packages[n]];
    assert y[..|x|] == kept && y[|x|] == b.packages[n] && y[..|y| - 1] == kept;
  }
}
