/**
 * Where the two phases of a corpus part: the planned edits. Both phases draw the same numbers and
 * record the same edits, and the record accounts for every difference between the two plans.
 */
module CorpusEdits {
  import opened Basics
  import opened CorpusDraws
  import opened CorpusPlan

  // ---------------------------------------------------------------------------------------------
  // Places in a plan

  datatype Place = Place(owner: nat, line: nat)

  predicate InPlan(packages: seq<Package>, at: Place) {
    at.owner < |packages| && at.line < |packages[at.owner].lines|
  }

  function At(packages: seq<Package>, at: Place): (line: Line)
    requires InPlan(packages, at)
  {
    packages[at.owner].lines[at.line]
  }

  function Replace(packages: seq<Package>, at: Place, line: Line): (r: seq<Package>)
    requires InPlan(packages, at)
    ensures |r| == |packages|
  {
    packages[at.owner := packages[at.owner].(lines := packages[at.owner].lines[at.line := line])]
  }

  function MapLines(lines: seq<Line>, f: Line -> Line): (r: seq<Line>)
    ensures |r| == |lines| && forall i | 0 <= i < |lines| :: r[i] == f(lines[i])
  {
    seq(|lines|, i requires 0 <= i < |lines| => f(lines[i]))
  }

  function MapMarks(marks: map<string, Mark>, f: Mark -> Mark): (r: map<string, Mark>)
    ensures r.Keys == marks.Keys
  {
    map culture | culture in marks :: f(marks[culture])
  }

  // ---------------------------------------------------------------------------------------------
  // The conflict edit, one per package with an incremental conflict

  const CONFLICT: string := "incremental-conflict"

  predicate HasConflict(lines: seq<Line>) {
    exists i :: 0 <= i < |lines| && CONFLICT <= lines[i].name
  }

  function Settled(line: Line, kept: string): (r: Line) {
    line.(source := kept, signals := ["shared"],
          marks := MapMarks(line.marks, (m: Mark) => m.(state := "translated", facts := ["translated"],
                                                       unknownReasons := [], problems := ["finding"])))
  }

  function SettlePackage(owner: Package, phase: Phase): (r: Package) {
    if phase.After? && HasConflict(owner.lines)
    then owner.(lines := MapLines(owner.lines, (line: Line) => Settled(line, owner.lines[0].manifestSource)))
    else owner
  }

  function SettleEdits(owner: Package, edits: Edits): (r: Edits) {
    if HasConflict(owner.lines)
    then edits.(packages := edits.packages + [owner.path],
                operations := edits.operations +
                  [Operation("resolve_conflict", owner.path, owner.lines[0].manifestSource)])
    else edits
  }

  function SettleAll(packages: seq<Package>, phase: Phase): (r: seq<Package>)
    ensures |r| == |packages| && forall i | 0 <= i < |packages| :: r[i] == SettlePackage(packages[i], phase)
  {
    seq(|packages|, i requires 0 <= i < |packages| => SettlePackage(packages[i], phase))
  }

  function SettleAllEdits(packages: seq<Package>, edits: Edits): (r: Edits) {
    if packages == [] then edits
    else SettleEdits(packages[|packages| - 1], SettleAllEdits(packages[..|packages| - 1], edits))
  }

  // ---------------------------------------------------------------------------------------------
  // The edit candidates

  predicate Candidate(owner: Package, line: Line) {
    line.name == BACKGROUND && line.template == Some(0) && owner.kind.DataTable?
  }

  function CandidatesIn(owner: Package, p: nat, n: nat): (r: seq<Place>)
    requires n <= |owner.lines|
  {
    if n == 0 then []
    else CandidatesIn(owner, p, n - 1) + (if Candidate(owner, owner.lines[n - 1]) then [Place(p, n - 1)] else [])
  }

  function Candidates(packages: seq<Package>): (r: seq<Place>) {
    if packages == [] then []
    else
      var n := |packages| - 1;
      Candidates(packages[..n]) + CandidatesIn(packages[n], n, |packages[n].lines|)
  }

  function Placed(line: Line, namespace: string): (r: Line) {
    line.(field := line.key + ".DisplayName", namespace := "[" + namespace + "]")
  }

  /** The probe's own candidates, from number `from` to two. */
  function ProbeLines(from: nat, seed: nat, namespace: string, value: nat, w: Wording): (r: seq<Line>)
    ensures from <= 3 ==> |r| == 3 - from
    decreases 3 - from
  {
    if from >= 3 then []
    else [Placed(PlainBackground(1_000_000 + from, seed, DataTableCell, value, w), namespace)] +
         ProbeLines(from + 1, seed, namespace, Next(value), w)
  }

  function EditProbe(found: nat, root: string, seed: nat, value: nat, w: Wording): (r: Package) {
    var namespace := Guid(value);
    Package(DataTable, "EditProbe", "Edits", root + "/Edits/EditProbe", namespace, Guid(AfterGuid(value)),
            "Corpus.EditProbe", ProbeLines(found, seed, namespace, AfterGuid(AfterGuid(value)), w))
  }

  /** A plan with at least three candidates: a small one gets its own probe. */
  function Probed(packages: seq<Package>, root: string, seed: nat, value: nat, w: Wording): (r: seq<Package>) {
    var found := |Candidates(packages)|;
    if found < 3 then packages + [EditProbe(found, root, seed, value, w)] else packages
  }

  function ProbedPlaces(packages: seq<Package>): (r: seq<Place>)
    ensures |r| >= 3
  {
    var found := Candidates(packages);
    if |found| < 3 then found + seq(3 - |found|, k requires 0 <= k < 3 => Place(|packages|, k)) else found
  }

  function AfterEditProbe(found: nat, value: nat): (r: nat)
    requires found <= 3
  {
    Advance(AfterGuid(AfterGuid(value)), 3 - found)
  }

  function AfterProbe(packages: seq<Package>, value: nat): (r: nat) {
    var found := |Candidates(packages)|;
    if found < 3 then AfterEditProbe(found, value) else value
  }

  // ---------------------------------------------------------------------------------------------
  // The three text edits

  function Register(edits: Edits, kind: string, owner: Package, line: Line, value: string): (r: Edits) {
    edits.(operations := edits.operations + [Operation(kind, owner.path + ":" + line.key, value)],
           packages := if owner.path in edits.packages then edits.packages else edits.packages + [owner.path])
  }

  function EditSource(line: Line, source: string): (r: Line) {
    line.(name := "edit-source", source := source,
          marks := MapMarks(line.marks, (m: Mark) => m.(state := "changed_since_gather",
                                                       facts := ["translated", "changed_since_gather"],
                                                       problems := ["changed_since_gather"])))
  }

  function EditPo(line: Line, culture: string, po: string): (r: Line)
    requires culture in line.marks
  {
    line.(name := "edit-po",
          marks := line.marks[culture := line.marks[culture].(po := po, importPending := true, state := "not_synced",
                                                              facts := ["translated", "not_synced"],
                                                              problems := ["translation"])])
  }

  function EditArchive(line: Line, culture: string, translation: string): (r: Line)
    requires culture in line.marks
  {
    var m := line.marks[culture];
    line.(name := "edit-archive",
          marks := line.marks[culture := m.(resourceTranslation := m.translation, translation := translation,
                                            importPending := true, compilePending := true, state := "not_synced",
                                            facts := ["translated", "not_synced"], problems := ["translation"])])
  }

  const EDIT_CULTURES: seq<string> := ["de", "fr", "ja"]

  /** Background texts carry their token and every culture; nothing else is named so. */
  predicate WellMade(line: Line) {
    line.name == BACKGROUND ==> line.token.Some? && forall culture | culture in CULTURES :: culture in line.marks
  }

  predicate WellMadeAll(packages: seq<Package>) {
    forall p, l | 0 <= p < |packages| && 0 <= l < |packages[p].lines| :: WellMade(packages[p].lines[l])
  }

  datatype TextEdits = TextEdits(source: Place, po: Place, archive: Place, culture: string)

  function TokenAt(packages: seq<Package>, at: Place): (s: string)
    requires InPlan(packages, at) && At(packages, at).token.Some?
  {
    At(packages, at).token.value
  }

  predicate TokenedAt(packages: seq<Package>, at: Place) {
    InPlan(packages, at) && At(packages, at).token.Some?
  }

  /** The three places are different texts of the plan with tokens: what both phases ask for. */
  predicate Tokened(packages: seq<Package>, e: TextEdits) {
    && e.source != e.po && e.source != e.archive && e.po != e.archive
    && TokenedAt(packages, e.source) && TokenedAt(packages, e.po) && TokenedAt(packages, e.archive)
  }

  /** The two translated texts have the drawn culture: what only the later phase reads. */
  predicate Marked(packages: seq<Package>, e: TextEdits)
    requires Tokened(packages, e)
  {
    e.culture in At(packages, e.po).marks && e.culture in At(packages, e.archive).marks
  }

  /** What a phase needs of the drawn texts not to throw. */
  predicate Editable(packages: seq<Package>, e: TextEdits, phase: Phase) {
    Tokened(packages, e) && (phase.After? ==> Marked(packages, e))
  }

  function RegisterTexts(packages: seq<Package>, e: TextEdits, edits: Edits): (r: Edits)
    requires Tokened(packages, e)
  {
    var one := Register(edits, "source", packages[e.source.owner], At(packages, e.source),
                        "Reef " + TokenAt(packages, e.source));
    var two := Register(one, "po", packages[e.po.owner], At(packages, e.po), "Import " + TokenAt(packages, e.po));
    Register(two, "archive", packages[e.archive.owner], At(packages, e.archive),
             "Archiv " + TokenAt(packages, e.archive))
  }

  function ApplyTexts(packages: seq<Package>, e: TextEdits): (r: seq<Package>)
    requires Tokened(packages, e) && Marked(packages, e)
    ensures |r| == |packages|
  {
    var one := Replace(packages, e.source, EditSource(At(packages, e.source), "Reef " + TokenAt(packages, e.source)));
    var two := Replace(one, e.po, EditPo(At(packages, e.po), e.culture, "Import " + TokenAt(packages, e.po)));
    Replace(two, e.archive, EditArchive(At(packages, e.archive), e.culture, "Archiv " + TokenAt(packages, e.archive)))
  }

  // ---------------------------------------------------------------------------------------------
  // The deleted package

  predicate Deletable(owner: Package, named: seq<string>) {
    && owner.kind.DataTable?
    && (forall l | 0 <= l < |owner.lines| :: owner.lines[l].name == BACKGROUND)
    && owner.path !in named
  }

  function Deletables(packages: seq<Package>, named: seq<string>): (r: seq<nat>)
    ensures forall p | p in r :: p < |packages|
  {
    if packages == [] then []
    else
      var n := |packages| - 1;
      Deletables(packages[..n], named) + (if Deletable(packages[n], named) then [n] else [])
  }

  function DeleteProbe(root: string, seed: nat, value: nat, w: Wording): (r: Package) {
    var namespace := Guid(value);
    Package(DataTable, "DeleteProbe", "Edits", root + "/Edits/DeleteProbe", namespace, Guid(AfterGuid(value)),
            "Corpus.DeleteProbe",
            [Placed(DrawnBackground(1_050_000, seed, DataTableCell, AfterGuid(AfterGuid(value)), w), namespace)])
  }

  function DrawnDeletable(packages: seq<Package>, named: seq<string>, value: nat): (p: nat)
    requires Deletables(packages, named) != []
    ensures p < |packages| && p in Deletables(packages, named)
  {
    Pick(Deletables(packages, named), value)
  }

  /** The plan with its package to delete, and where that is. */
  function Deletion(packages: seq<Package>, named: seq<string>, root: string, seed: nat, value: nat, w: Wording)
    : (r: (seq<Package>, nat))
    ensures r.1 < |r.0|
  {
    var found := Deletables(packages, named);
    if found == [] then (packages + [DeleteProbe(root, seed, Next(value), w)], |packages|)
    else (packages, DrawnDeletable(packages, named, value))
  }

  function AfterDeletion(packages: seq<Package>, named: seq<string>, value: nat): (r: nat) {
    if Deletables(packages, named) == [] then Next(Next(AfterGuid(AfterGuid(Next(value))))) else Next(value)
  }

  function DeleteLine(line: Line): (r: Line) {
    line.(present := false, name := "edit-deleted-package",
          marks := MapMarks(line.marks, (m: Mark) => m.(state := "not_found", facts := ["translated", "not_found"],
                                                       problems := ["changed_since_gather"])))
  }

  function DeleteAt(packages: seq<Package>, p: nat): (r: seq<Package>)
    requires p < |packages|
    ensures |r| == |packages|
  {
    packages[p := packages[p].(lines := MapLines(packages[p].lines, DeleteLine))]
  }

  // ---------------------------------------------------------------------------------------------
  // The added package

  function AddedKind(value: nat): (k: SourceKind) {
    Pick([StringTableEntry, DataTableCell], value)
  }

  function AddedShell(root: string, value: nat): (r: Package) {
    var v := Next(Next(value));
    var name := "Added_" + Decimal(Drawn(v, 1000, 9999));
    Package(PackageKindOf(AddedKind(value)), name, "Edits", root + "/Edits/" + name, Guid(v), Guid(AfterGuid(v)),
            "Corpus." + name, [])
  }

  function AddedLine(owner: Package, i: nat, kind: SourceKind, seed: nat, value: nat, w: Wording): (r: Line) {
    var line := DrawnBackground(1_100_000 + i, seed, kind, value, w);
    var table := kind.StringTableEntry?;
    line.(name := "edit-added-package", gathered := false,
          namespace := if table then owner.tableNamespace else "[" + owner.packageNamespace + "]",
          field := if table then line.key else line.key + ".DisplayName",
          notes := if table then line.notes else "",
          marks := MapMarks(line.marks, (m: Mark) => m.(state := "not_gathered",
                                                       facts := ["not_translated", "not_gathered"],
                                                       problems := ["not_gathered"])))
  }

  function AddedLines(owner: Package, i: nat, count: nat, kind: SourceKind, seed: nat, value: nat, w: Wording)
    : (r: seq<Line>)
    ensures i <= count ==> |r| == count - i
    decreases count - i
  {
    if i >= count then []
    else [AddedLine(owner, i, kind, seed, value, w)] +
         AddedLines(owner, i + 1, count, kind, seed, Next(Next(value)), w)
  }

  function AddedPackage(root: string, seed: nat, value: nat, w: Wording): (r: Package)
    ensures 1 <= |r.lines| <= 4
  {
    var shell := AddedShell(root, value);
    var v := Next(AfterGuid(AfterGuid(Next(Next(value)))));
    shell.(lines := AddedLines(shell, 0, Drawn(v, 1, 4), AddedKind(value), seed, v, w))
  }

  function KindName(kind: SourceKind): (s: string) {
    if kind.StringTableEntry? then "stringTableEntry" else "dataTableCell"
  }

  // ---------------------------------------------------------------------------------------------
  // The whole edit plan

  function AssetFile(path: string): (s: string) {
    "Content/" + (if |path| > 6 then path[6..] else "") + ".uasset"
  }

  function CultureFiles(target: string, code: string): (r: seq<string>) {
    var base := "Content/Localization/" + target + "/" + code + "/" + target;
    [base + ".archive", base + ".po"]
  }

  function ChangedFiles(edits: Edits, target: string): (r: seq<string>) {
    var paths := edits.packages + edits.deleted;
    seq(|paths|, i requires 0 <= i < |paths| => AssetFile(paths[i])) +
    CultureFiles(target, "de") + CultureFiles(target, "fr") + CultureFiles(target, "ja")
  }

  datatype Inputs = Inputs(root: string, target: string, seed: nat, wording: Wording)

  /** The three drawn text edits. */
  function DrawnTexts(packages: seq<Package>, value: nat): (e: TextEdits) {
    var places := ProbedPlaces(packages);
    var order := Shuffled(places, AfterProbe(packages, value));
    TextEdits(order[0], order[1], order[2],
              Pick(EDIT_CULTURES, AfterShuffle(|places|, AfterProbe(packages, value))))
  }

  function AfterTexts(packages: seq<Package>, value: nat): (r: nat) {
    Next(AfterShuffle(|ProbedPlaces(packages)|, AfterProbe(packages, value)))
  }

  datatype Plan = Plan(packages: seq<Package>, edits: Edits)

  function RestEdits(edits: Edits, deleted: Package, added: Package, kind: SourceKind, target: string): (r: Edits) {
    var all := edits.(deleted := edits.deleted + [deleted.path],
                      packages := edits.packages + [added.path],
                      operations := edits.operations + [Operation("delete_package", deleted.path, ""),
                        Operation("add_package", added.path, KindName(kind))]);
    all.(changedFiles := ChangedFiles(all, target))
  }

  /** From the registered text edits on. */
  function EditRest(packages: seq<Package>, edits: Edits, value: nat, phase: Phase, inputs: Inputs): (r: Plan) {
    var (some, p) := Deletion(packages, edits.packages, inputs.root, inputs.seed, value, inputs.wording);
    var v := AfterDeletion(packages, edits.packages, value);
    var added := AddedPackage(inputs.root, inputs.seed, v, inputs.wording);
    Plan(if phase.After? then DeleteAt(some, p) + [added] else some,
         RestEdits(edits, some[p], added, AddedKind(v), inputs.target))
  }

  /** `editPlan`; `None` where it throws: a drawn text without a token or, in the later phase, without the culture. */
  function EditPlan(packages: seq<Package>, edits: Edits, value: nat, phase: Phase, inputs: Inputs): (r: Option<Plan>) {
    var some := Probed(packages, inputs.root, inputs.seed, value, inputs.wording);
    var e := DrawnTexts(packages, value);
    if !Editable(some, e, phase) then None
    else Some(EditRest(if phase.After? then ApplyTexts(some, e) else some, RegisterTexts(some, e, edits),
                       AfterTexts(packages, value), phase, inputs))
  }

  lemma EditPlanExactly(packages: seq<Package>, edits: Edits, value: nat, phase: Phase, inputs: Inputs)
    ensures EditPlan(packages, edits, value, phase, inputs).Some? <==>
      Editable(Probed(packages, inputs.root, inputs.seed, value, inputs.wording), DrawnTexts(packages, value), phase)
  {
  }

  const EDIT_SEED: bv32 := 0x51ED_270B

  function EditSeed(seed: nat): (r: nat) {
    (((seed % WORD) as bv32) ^ EDIT_SEED) as nat
  }

  function NonEmpty(packages: seq<Package>): (r: seq<Package>) {
    if packages == [] then []
    else
      var n := |packages| - 1;
      NonEmpty(packages[..n]) + (if packages[n].lines == [] then [] else [packages[n]])
  }

  function LineCount(packages: seq<Package>): (n: nat) {
    if packages == [] then 0 else LineCount(packages[..|packages| - 1]) + |packages[|packages| - 1].lines|
  }

  const NO_EDITS: Edits := Edits([], [], [], [])

  /** `planCorpus` from the first place that reads the phase to the kept packages. */
  function Finish(packages: seq<Package>, phase: Phase, inputs: Inputs): (r: Option<Plan>) {
    match EditPlan(SettleAll(packages, phase), SettleAllEdits(packages, NO_EDITS), EditSeed(inputs.seed), phase, inputs)
    case None => None
    case Some(plan) => Some(Plan(NonEmpty(plan.packages), plan.edits))
  }
}
