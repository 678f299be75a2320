/** The planned corpus: packages of planned texts, and the background texts the planner makes. */
module CorpusPlan {
  import opened Basics
  import opened CorpusDraws

  datatype SourceKind = StringTableEntry | DataTableCell | BlueprintVariable | BlueprintPin | WidgetText
  datatype PackageKind = StringTable | DataTable | WidgetBlueprint | Blueprint
  datatype Mode = Plain | Invariant | Reference | Scaffold
  datatype Phase = Initial | After

  /** One culture's planted state. */
  datatype Mark = Mark(
    translation: string,
    resourceTranslation: string,
    po: string,
    importPending: bool,
    compilePending: bool,
    state: string,
    facts: seq<string>,
    unknownReasons: seq<string>,
    problems: seq<string>)

  /** One planned text; `template` and `token` are the parameters of a background text. */
  datatype Line = Line(
    name: string,
    template: Option<nat>,
    token: Option<string>,
    kind: SourceKind,
    field: string,
    namespace: string,
    key: string,
    source: string,
    notes: string,
    mode: Mode,
    manifestSource: string,
    gathered: bool,
    present: bool,
    compiledSource: string,
    previousSource: string,
    signals: seq<string>,
    marks: map<string, Mark>)

  datatype Package = Package(
    kind: PackageKind,
    name: string,
    folder: string,
    path: string,
    packageNamespace: string,
    persistentGuid: string,
    tableNamespace: string,
    lines: seq<Line>)

  datatype Operation = Operation(kind: string, subject: string, value: string)

  datatype Edits = Edits(
    packages: seq<string>,
    deleted: seq<string>,
    changedFiles: seq<string>,
    operations: seq<Operation>)

  /** How a background word reads in a template and a culture: wording, not planning. */
  type Wording = (nat, string, string) -> string

  const CULTURES: seq<string> := ["en", "de", "fr", "ja"]
  const BACKGROUND: string := "background"

  function PackageKindOf(kind: SourceKind): (k: PackageKind) {
    match kind
    case StringTableEntry => StringTable
    case DataTableCell => DataTable
    case WidgetText => WidgetBlueprint
    case _ => Blueprint
  }

  // Numbers as text

  const DIGITS: string := "0123456789abcdefghijklmnopqrstuvwxyz"
  const UPPER: string := "0123456789ABCDEF"

  function Decimal(n: nat): (s: string) {
    if n < 10 then [DIGITS[n]] else Decimal(n / 10) + [DIGITS[n % 10]]
  }

  function Base36(n: nat): (s: string) {
    if n < 36 then [DIGITS[n]] else Base36(n / 36) + [DIGITS[n % 36]]
  }

  function UpperHex(n: nat): (s: string) {
    if n < 16 then [UPPER[n]] else UpperHex(n / 16) + [UPPER[n % 16]]
  }

  function Padded(s: string, width: nat): (r: string)
    decreases width - |s|
  {
    if |s| >= width then s else Padded("0" + s, width)
  }

  // Draws of the planner

  function Pick<T>(values: seq<T>, value: nat): (r: T)
    requires values != []
    ensures r in values
  {
    values[Drawn(Next(value), 0, |values| - 1)]
  }

  function GuidPart(value: nat): (s: string) {
    Padded(UpperHex(Drawn(value, 0, 0xFF_FFFF)), 8)
  }

  const GUID_DRAWS: nat := 4

  function AfterGuid(value: nat): (r: nat) {
    Advance(value, GUID_DRAWS)
  }

  /** Four draws. */
  function Guid(value: nat): (s: string) {
    var a := Next(value);
    var b := Next(a);
    var c := Next(b);
    GuidPart(a) + GuidPart(b) + GuidPart(c) + GuidPart(Next(c))
  }

  // Background texts

  function BackgroundToken(id: nat, seed: nat): (s: string) {
    "b" + Base36(seed) + "x" + Padded(Base36(id), 5)
  }

  function BackgroundMark(template: nat, culture: string, word: string, w: Wording): (m: Mark) {
    Mark(w(template, culture, word), "", w(template, culture, word), false, false, "translated", ["translated"], [],
         ["up_to_date"])
  }

  /** `backgroundText` once its template and padding are drawn. */
  function BackgroundLine(id: nat, seed: nat, kind: SourceKind, template: nat, padding: nat, w: Wording): (line: Line) {
    var token := BackgroundToken(id, seed);
    var word := token + seq(padding, _ => 'r');
    var source := w(template, "en", word);
    Line(BACKGROUND, Some(template), Some(token), kind, "", "", "BG" + Decimal(id), source,
         "Background " + token + ".", Plain, source, true, true, "", "", [],
         map culture | culture in CULTURES :: BackgroundMark(template, culture, word, w))
  }

  /** With a drawn template: two draws. */
  function DrawnBackground(id: nat, seed: nat, kind: SourceKind, value: nat, w: Wording): (line: Line) {
    BackgroundLine(id, seed, kind, Drawn(Next(value), 0, 5), Drawn(Next(Next(value)), 0, 2), w)
  }

  /** With template 0: one draw. */
  function PlainBackground(id: nat, seed: nat, kind: SourceKind, value: nat, w: Wording): (line: Line) {
    BackgroundLine(id, seed, kind, 0, Drawn(Next(value), 0, 2), w)
  }
}
