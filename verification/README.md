# Proofs about the scripts layer

The repository's `scripts/` directory holds, beside its benchmark plumbing, a number of algorithms whose
claims reach further than finite tests can: a text carrier that must undo itself, a streaming digest that
must agree with a one-shot one, a store of interned strings that must mean plain strings, a seeded planner
whose two phases must draw alike, searching and counting loops, and step protocols with crashes. This
project models them in Dafny and proves those claims, or where a claim fails, the exact condition under
which it holds and an input for which it does not.

`dafny verify dfyconfig.toml` checks everything. Strings are sequences of UTF-16 code units throughout
(`Utf16.dfy`), hashes are arbitrary functions, and exceptions are results. `Basics.dfy` and `TextEnds.dfy` hold
what several models share.

| files | modelled |
|---|---|
| `BlueprintText`, `BlueprintCarrier`, `BlueprintRoundTrip`, `BlueprintLoops` | the text carrier for saved Blueprint graphs: printer, line patterns, parser state, round trip |
| `Json`, `Wtf8` | JSON text and WTF-8 bytes as JavaScript writes and reads them |
| `EngineAnswers`, `AnswerDigest` | canonical answers: the one-shot text and the chunked digest |
| `JoinStore` | the in-memory store of interned strings behind the differential join |
| `CorpusDraws`, `CorpusPlan`, `CorpusEdits`, `CorpusLockstep`, `CorpusPlanner`, `CorpusPlacement`, `CorpusScaffolds`, `CorpusWhole`, `CorpusDeletion`, `CorpusPaths` | the corpus planner: generator, shuffle, packing, regenerated scaffolds, edit plan and its two phases, and what becomes of the deleted package |
| `Substitution`, `SubstitutionStages`, `SubstitutionWords` | the constructor's protected two-pass substitution, and its own words and values |
| `Census` | the streaming token census |
| `Shrinker`, `Differ` | the bounded shrinker and the recursive comparison of the join fuzz |
| `StageTimings` | the union of span intervals |
| `EngineStage` | the shared-counter worker pool |
| `Reach`, `BrowserClosure`, `CiScope`, `ScaleSafety` | three closure walks |
| `SavedOracle` | the paged comparison with a saved oracle |
| `BuildStamp`, `BuildSkip` | the build fingerprint and the skipped build |
| `CorpusOwnership` | the ownership receipt and the check before a clean |
| `MachineLease` | the machine-wide lease |

Where the code and its own words part, the model follows the code:

- The planner promises that replacements are protected from each other. They are, unless a text spells a slot
  number between two slots; `SubstitutionStages.SimultaneousExactly` has the exact condition, and
  `SubstitutionWords.TrapExample` an input in the constructor's own words, `Lantern4Cargo`.
- The two phases of a plan do not throw together: the first never looks at the cultures of the drawn texts
  (`CorpusLockstep.PhasesInLockstep` has both conditions, `CorpusWhole.OnlyTheLaterPhaseThrows` an input).
  On what the planner itself makes neither throws (`CorpusWhole.BothPhasesComeOut`).
- The record of edits can name a deleted package that the plan does not keep: a data table that placement has
  emptied, and nothing else (`CorpusDeletion.DeletedIsPlanned`, `CorpusPaths.PlannerDeletion`). It is kept for
  every draw exactly where no data table is empty (`EveryDeletionPlanned`), and never where no other can be
  drawn (`NeverPlanned`, `EmptiedIsDeleted`).
- The digest promises the one-shot text without building it. Both read back as the same answer, but a string
  with a lone high surrogate at a chunk boundary before a whole pair is streamed differently
  (`AnswerDigest.StreamMatchesJson`, `CutExample`).
- The census counts one of its tokens, `"status":"partial"`, exactly only where it does not overlap itself
  (`Census.SafeTokens`, `OnlyPartialIsBordered`).
- The comparison sorts unordered lists only where both sides are string lists. What the left side reads as
  decides alone exactly when its unordered string lists are sorted already and none holds two different
  strings and trails off into undefined (`Differ.ReadingExactly`); otherwise silence need not even be
  transitive (`UndefinedBreaksOrder`).
- A shrunk input is minimal in the kind deleted last, and in another kind exactly when no failing deletion
  passes once the later ones are put back (`Shrinker.MinimalExactly`). That holds for every failure that
  putting back never cures (`MinimalInEveryKind`), not for those alone (`OnlyIsMinimal`), and not for all
  (`LastPhaseReopensFirst`).
- The clean check does not notice a recorded file that has become a directory, unless it is the configuration
  (`CorpusOwnership.AcceptsExactly`, `DirectoryUnnoticed`, `ConfigurationRefused`).

## Model

| member | source | states |
|---|---|---|
| BlueprintRoundTrip.ParseExport | scripts/blueprint-diagram-prototype.ts:60-149 | For every hash into word characters and every graph that exports, parsing the text gives exactly that graph, with nodes, pins and mixed resolved and unresolved links in order, if and only if no node or pin tail holds U+2028 or U+2029; otherwise the text is refused, never misread. |
| BlueprintRoundTrip.ReExport | scripts/blueprint-diagram-prototype.ts:60-149 | Exporting the parsed graph again gives the same text. |
| BlueprintRoundTrip.SeparatorExample | scripts/blueprint-diagram-prototype.ts:110-111 | A concrete graph (an object path that is U+2028) exports and is then refused, because `.` in the node pattern stops at line terminators. |
| BlueprintText.CarrierReadsBack | scripts/blueprint-diagram-prototype.ts:46-50 | The carrier JSON of a value, with `& < > % #` as Unicode escapes, reads back as the value. |
| BlueprintText.EscapedPrint | scripts/blueprint-diagram-prototype.ts:46-50 | Replacing the five characters in the printed text only ever touches its strings. |
| BlueprintText.CarrierSeparator | scripts/blueprint-diagram-prototype.ts:46-50 | Carrier JSON never holds a line break, and holds U+2028 or U+2029 exactly where a string of the value does. |
| BlueprintText.ScanStringReads | scripts/blueprint-diagram-prototype.ts:110-111 | The quoted-string part of the line patterns takes exactly the printed string token, whatever follows. |
| BlueprintText.ScanIntReads | scripts/blueprint-diagram-prototype.ts:76-120 | A printed integer position is taken whole by `-?\d+` and converts back to itself. |
| BlueprintRoundTrip.NodeLineMatches | scripts/blueprint-diagram-prototype.ts:110-122 | A printed node line matches the node pattern with exactly its own parts, or does not match when its tail has a separator. |
| BlueprintRoundTrip.PinLineMatches | scripts/blueprint-diagram-prototype.ts:83-129 | The same for pin lines. |
| BlueprintRoundTrip.WireLineMatches | scripts/blueprint-diagram-prototype.ts:91-139 | A wire line matches only the wire pattern, with its two endpoints. |
| BlueprintRoundTrip.NodeStep | scripts/blueprint-diagram-prototype.ts:113-124 | One node line in the parser state of all lines before it: the node is pushed without pins and becomes current. |
| BlueprintRoundTrip.PinStep | scripts/blueprint-diagram-prototype.ts:125-134 | One pin line: the pin goes to the current node and its alias pair into the endpoint table. |
| BlueprintRoundTrip.EndpointsValue | scripts/blueprint-diagram-prototype.ts:131-137 | After all nodes the endpoint table resolves every alias pair to the pin it was made for. |
| BlueprintLoops.ExportBlueprintDiagram | scripts/blueprint-diagram-prototype.ts:60-94 | The exporter with its loops, alias sets and throws equals the specification `Export`. |
| BlueprintLoops.ParseBlueprintDiagram | scripts/blueprint-diagram-prototype.ts:97-149 | The parser with its state variables and throws equals the specification `ParseDiagram`. |
| BlueprintLoops.ReadLine | scripts/blueprint-diagram-prototype.ts:110-144 | The patterns tried in the order of the source make one step of the specification. |
| BlueprintLoops.ExportPins | scripts/blueprint-diagram-prototype.ts:77-86 | The pins of one node: their lines in order, or the throw exactly when two share an alias. |
| BlueprintLoops.IndexGraph | scripts/blueprint-diagram-prototype.ts:52-58 | The index has no issue exactly when no node path occurs twice and no pin id twice in one node; then it finds every node and pin. |
| BlueprintLoops.FindEndpoint | scripts/blueprint-diagram-prototype.ts:65-70 | The endpoint text of a reference: the two aliases, or none when the node or the pin is unknown. |
| Json.QuoteIsFaithful | scripts/game-text-engine-results.ts:190-200 | What `JSON.stringify` makes of a string, lone surrogates escaped (QuoteJSONString, section 25.5.2 of ECMA-262), reads back as the string. |
| Json.RoundTrip | scripts/game-text-engine-results.ts:190-200 | A printed JSON value reads back as itself for every faithful string quoter. |
| EngineAnswers.CanonPlain | scripts/game-text-engine-results.ts:190-200 | The key-sorted answer is plain JSON: distinct keys in the order objects enumerate them, no undefined left. |
| EngineAnswers.BuildOrders | scripts/game-text-engine-results.ts:193-195 | `Object.fromEntries` of sorted entries: integer-like keys first by value, then the others by code unit, nothing lost. |
| EngineAnswers.CanonSame | scripts/game-text-engine-results.ts:190-200 | Two answers have the same canonical value if and only if they are the same answer: key order and undefined members aside, array holes as null. |
| AnswerDigest.StreamMatchesJson | scripts/game-text-engine-results.ts:190-266 | The streamed text is the one-shot text if and only if no chunk boundary cuts a surrogate pair, and each cut pair makes it exactly ten units longer. |
| AnswerDigest.CutShape | scripts/game-text-engine-results.ts:216-223 | When a boundary cuts a pair: exactly when a high surrogate is last in a full 16,384-unit chunk and a whole pair follows. |
| AnswerDigest.WellFormedUncut | scripts/game-text-engine-results.ts:216-223 | Well-formed strings are never cut. |
| AnswerDigest.CutExample | scripts/game-text-engine-results.ts:216-223 | A string for which the two texts differ. |
| AnswerDigest.StreamReadsBack | scripts/game-text-engine-results.ts:207-266 | For every answer, cut or not, the streamed text reads back as the canonical answer. |
| AnswerDigest.StreamSeparates | scripts/game-text-engine-results.ts:207-266 | The streamed text is the same exactly for the same answers. |
| AnswerDigest.HashedBytesSeparate | scripts/game-text-engine-results.ts:207-266 | So are the bytes that are hashed: only a collision of the hash can hide a difference. |
| AnswerDigest.Digest.EmitString | scripts/game-text-engine-results.ts:214-225 | The chunk loop feeds the chunked token of the string and keeps the byte count. |
| AnswerDigest.Digest.Visit | scripts/game-text-engine-results.ts:226-263 | The recursive visit feeds exactly the canonical text of its value. |
| AnswerDigest.EngineAnswerDigest | scripts/game-text-engine-results.ts:207-266 | The digest is the hash of the UTF-8 bytes of the streamed text together with their exact number; only undefined itself is refused. |
| Wtf8.DecodeEncode | packages/game-text/src/wtf8.ts:6-89 | The WTF-8 bytes strings are sorted by decode back to the string, lone surrogates included. |
| Wtf8.EncodeDecode | packages/game-text/src/wtf8.ts:46-89 | The decoder accepts exactly the encodings, so no text has two accepted byte forms. |
| JoinStore.InternKeeps | scripts/columnar-join-memory.test-support.ts:46-67 | Interning keeps values distinct, ids their inverse, and segments tiling the values in order and strictly sorted; old ids stay, and the returned ids look up to the given strings. |
| JoinStore.PublishMeans | scripts/columnar-join-memory.test-support.ts:76-143 | A published layer, its id columns remapped, still resolves to the strings of its source, and no earlier layer changes; it throws exactly when the plain store would. |
| JoinStore.StepMeans | scripts/columnar-join-memory.test-support.ts:46-150 | Every operation keeps the store valid, keeps every id, and means what the operation means on plain strings. |
| JoinStore.EveryRun | scripts/columnar-join-memory.test-support.ts:26-150 | Every run of interns, publishes and batches from the empty store means the same run of a store of plain strings. |
| JoinStore.InternedForEver | scripts/columnar-join-memory.test-support.ts:46-75 | Ids handed out once look up to the same strings after any later run. |
| JoinStore.Store.Intern | scripts/columnar-join-memory.test-support.ts:46-67 | The method reaches the specified state and returns the specified ids. |
| JoinStore.Store.Strings | scripts/columnar-join-memory.test-support.ts:68-75 | Lookup in order; it fails exactly when some id is missing. |
| JoinStore.Store.Publish | scripts/columnar-join-memory.test-support.ts:76-143 | The method reaches the specified state, also when it throws. |
| JoinStore.Store.Batch | scripts/columnar-join-memory.test-support.ts:144-150 | Publishes in order, then drops the removed names; a throw leaves the rest undone. |
| CorpusDraws.ShufflePermutes | scripts/game-text-corpus-plan.ts:1589-1595 | The shuffle is a permutation for every seed and length. |
| CorpusDraws.Drawn | scripts/game-text-corpus-plan.ts:1582-1585 | Every draw lies within its bounds. |
| CorpusDraws.Reached | scripts/game-text-corpus-plan.ts:1582-1584 | Every 32-bit state of the generator is left by some draw: its factor has an inverse. |
| CorpusDraws.Draws.Integer | scripts/game-text-corpus-plan.ts:1582-1585 | The 32-bit generator step and the number it gives. |
| CorpusDraws.Draws.Shuffle | scripts/game-text-corpus-plan.ts:1589-1595 | The in-place swaps give the specified permutation and advance the generator by one step for each position but the first. |
| CorpusLockstep.PhasesInLockstep | scripts/game-text-corpus-plan.ts:2325-2350 | For every seed, wording and placed corpus: the first phase succeeds exactly when the three drawn texts have string tokens, the later one exactly when the two translated ones also have the drawn culture. Where both succeed they record the same edits, and the later plan is the earlier one package by package and key by key plus the added package; packages the record does not name are equal. |
| CorpusLockstep.EditLockstep | scripts/game-text-corpus-plan.ts:1887-2051 | The edit plans of two plans that look alike to it draw the same numbers and record the same edits; which phase throws, and exactly when. |
| CorpusLockstep.SameDeletables | scripts/game-text-corpus-plan.ts:1966-1973 | Both phases filter the same deletion candidates, although the later one has already rewritten texts. |
| CorpusLockstep.SettleAccounts | scripts/game-text-corpus-plan.ts:2325-2345 | Resolving conflicts changes only packages the record names, and nothing the edit plan looks at. |
| CorpusPlanner.Planner.EditPlan | scripts/game-text-corpus-plan.ts:1887-2051 | The edit plan as it runs, generator state and in-place edits included, equals its specification in either phase; the cultures are read in the later one only, and there its throw is in the same cases. |
| CorpusPlanner.DrawnTextsGood | scripts/game-text-corpus-plan.ts:1887-1925 | Whatever is drawn, the three texts to edit are three different background texts of the plan or its probe, and the culture is one of the three. |
| CorpusPlanner.EditPlanSucceeds | scripts/game-text-corpus-plan.ts:1925-1965 | On texts made by the planner the edit plan never throws, in either phase. |
| CorpusPlacement.TakeMovable | scripts/game-text-corpus-plan.ts:2200-2232 | The loop that takes the movable texts out keeps and moves exactly those the conditions select. |
| CorpusPlacement.TakingConserves | scripts/game-text-corpus-plan.ts:2200-2232 | What stays and what moves together are all texts but the scaffolds, copy for copy. |
| CorpusPlacement.AddBackground | scripts/game-text-corpus-plan.ts:2233-2238 | Background texts are numbered from the visible count on, at least twenty and as many as the requested lines ask for, each with the template and padding drawn for it, two draws apiece. |
| CorpusPlacement.Placer.OwnerFor | scripts/game-text-corpus-plan.ts:2142-2170 | The package for a kind: the open pool while it has room, else a new one with the identifiers and the capacity that the generator gives there, on record from then on. It has room, and no text moves. |
| CorpusPlacement.Placer.PlaceNext | scripts/game-text-corpus-plan.ts:2240-2261 | One step of the packing, generator state included. One text goes to the end of exactly one package: a new case package of its own for a case text, else a pooled one with room. Every pooled package holds at most its recorded capacity, and recorded capacities never change. |
| CorpusPlacement.Placer.PlaceAll | scripts/game-text-corpus-plan.ts:2240-2262 | The loop equals the packing as a function of texts and generator state. Every moving text ends in exactly one package and nothing else changes. |
| CorpusPlacement.PackAllKeeps | scripts/game-text-corpus-plan.ts:2240-2262 | For every order of texts and every generator state, that function conserves texts, keeps the packages from before, and keeps every pooled package within the capacity drawn for it. |
| CorpusPlacement.PlacementHolds | scripts/game-text-corpus-plan.ts:2194-2262 | For every seed: every text but the scaffolds and every background text is placed exactly as often as before, the total is max(lines, visible + 20), every pooled package holds at most the capacity drawn for it within the bounds of its kind, and every other new package at most one case text. |
| CorpusPlacement.PlaceCorpus | scripts/game-text-corpus-plan.ts:2194-2262 | The placement as it runs is that function of its input and the generator state, background texts, shuffle, identifiers and capacities included, with all it promises. |
| CorpusWhole.PlacedWellMade | scripts/game-text-corpus-plan.ts:2194-2262 | Placement keeps texts well made: background texts keep their token and every culture wherever they go. |
| CorpusScaffolds.DressCorpus | scripts/game-text-corpus-plan.ts:2304-2324 | The step between placement and edits, shuffles, regenerated categories and evidence signals included; it throws exactly when some blueprint variable needs a category and no recipe scaffold gives its marks. |
| CorpusScaffolds.DressingKeepsWellMade | scripts/game-text-corpus-plan.ts:2304-2324 | That step keeps a corpus well made: no regenerated category passes for a background text. |
| CorpusScaffolds.DressingCounts | scripts/game-text-corpus-plan.ts:2305-2317 | It adds one category text for each blueprint variable and nothing else. |
| CorpusScaffolds.DressedTexts | scripts/game-text-corpus-plan.ts:2304-2324 | The texts a package had are all still there once, in shuffled order and signalled in blueprints and widgets; all that is new are scaffolds. |
| CorpusWhole.FinishSucceeds | scripts/game-text-corpus-plan.ts:2325-2350 | From any well-made corpus the rest of the planner does not throw, in either phase. |
| CorpusWhole.BothPhasesComeOut | scripts/game-text-corpus-plan.ts:2325-2350 | From any well-made corpus both phases succeed, record the same edits, and differ only where the record says. |
| CorpusWhole.PlanPhases | scripts/game-text-corpus-plan.ts:2194-2350 | From well-made recipes to the two plans through placement, scaffolds and edits, each step as drawn: total and capacities of what is placed, both plans in lockstep, and the one throw there is. |
| CorpusWhole.OnlyTheLaterPhaseThrows | scripts/game-text-corpus-plan.ts:1925-1965 | Candidates with tokens and no culture: the first phase plans them whatever is drawn, the later one throws. |
| CorpusDeletion.DeletedIsPlanned | scripts/game-text-corpus-plan.ts:1966-2350 | In either phase one path is recorded as deleted, and the finished plan has a package of that path if and only if it is not the path of a data table that came without texts. |
| CorpusDeletion.EveryDraw | scripts/game-text-corpus-plan.ts:1966-1996 | In either phase: the deleted path is planned for every draw if and only if no deletable package within reach of a draw is empty. |
| CorpusDeletion.EveryDeletionPlanned | scripts/game-text-corpus-plan.ts:1887-1996 | For the deletion as both phases come to it: the deleted path is planned for every draw if and only if no data table of the corpus is empty. |
| CorpusDeletion.NeverPlanned | scripts/game-text-corpus-plan.ts:1887-2350 | Where every data table is empty or holds a recipe text, and one is empty, the deleted path is never planned, whatever the seed, the wording and the phase. |
| CorpusDeletion.EmptiedIsDeleted | scripts/game-text-corpus-plan.ts:1887-2350 | A corpus with one data table, an emptied one: both phases succeed, record exactly its path as deleted, and no package of the finished plan has it. |
| CorpusPaths.EmptiedByPlacement | scripts/game-text-corpus-plan.ts:2200-2232 | Placement empties exactly the recipe packages all of whose texts move or are scaffolds. |
| CorpusPaths.PlannerPaths | scripts/game-text-corpus-plan.ts:2143-2170 | For every seed the packages of a placed corpus have distinct paths, and none in the folder of the edits. |
| CorpusPaths.PlannerDeletion | scripts/game-text-corpus-plan.ts:2194-2350 | So for everything the planner makes of recipes with their own paths, both phases succeed and keep a package of the deleted path if and only if it is not that of an emptied table. |
| Substitution.SegmentMeans | scripts/game-text-corpus-plan.ts:1732-1737 | What the first pass does to a text without NUL: it is the text with its slots as markers; the words put back give the text; no literal holds a word any more. |
| Substitution.ReplaceAround | scripts/game-text-corpus-plan.ts:1736-1740 | A replacement never crosses a NUL. |
| SubstitutionStages.SimultaneousExactly | scripts/game-text-corpus-plan.ts:1732-1740 | For words and values that no slot number contains (which holds for all the constructor draws), the two passes are one simultaneous replacement of every word by its value if and only if no literal between two slots spells a slot number that is below the left slot and not above the right one; otherwise NULs are left in the output. |
| SubstitutionStages.SlotsMean | scripts/game-text-corpus-plan.ts:1732-1740 | The slots of a text: literals without words and slots whose words give the text back. |
| SubstitutionStages.MergeCollapses | scripts/game-text-corpus-plan.ts:1738-1740 | One stage of the second pass without a trap fills exactly its own slots. |
| SubstitutionStages.ExcessKept | scripts/game-text-corpus-plan.ts:1738-1740 | No stage makes up for a marker that was swallowed at the wrong place. |
| SubstitutionStages.TrapCosts | scripts/game-text-corpus-plan.ts:1738-1740 | A trap swallows the wrong field, so some NULs must survive all later stages. |
| SubstitutionStages.SubstitutionKeepsLength | scripts/game-text-corpus-plan.ts:1674-1745 | Values as wide as their words keep the length of a text without a trap. |
| SubstitutionStages.NoDigitNoTrap | scripts/game-text-corpus-plan.ts:1732-1740 | A text without digits has no trap. |
| SubstitutionStages.UntouchedText | scripts/game-text-corpus-plan.ts:1732-1740 | A text that holds no word comes out as it was, digits or not. |
| SubstitutionWords.WordsSafe | scripts/game-text-corpus-plan.ts:1604-1725 | The 90 words of the constructor, in its order: no slot number contains one of them or the other way round. |
| SubstitutionWords.DrawValues | scripts/game-text-corpus-plan.ts:1674-1731 | Whatever seed and instance (density is at most 12), the values drawn for them are as wide as their words and clear of slot numbers too. |
| SubstitutionWords.ConstructorSubstitutes | scripts/game-text-corpus-plan.ts:1732-1740 | So with the constructor's own words and any values it can draw: two passes are one simultaneous replacement, keeping the length, if and only if the text has no trap. |
| SubstitutionWords.TrapExample | scripts/game-text-corpus-plan.ts:1735-1740 | The two passes spoil `Lantern4Cargo`, whatever values are drawn. |
| SubstitutionStages.NonDigitClear | scripts/game-text-corpus-plan.ts:1677-1724 | Words and values with any unit but a digit are never found in a slot number. |
| SubstitutionStages.NumberClear | scripts/game-text-corpus-plan.ts:1707-1710 | Nor are the five-digit ones. |
| SubstitutionStages.Substitute | scripts/game-text-corpus-plan.ts:1732-1745 | The closure with its two loops: game paths and corpus names are kept, everything else is protected substitution and then the swap of two culture names. |
| Census.SafeTokens | scripts/game-text-scale-validation.ts:9-38 | A token is counted exactly for every text, every split into chunks and every decoder remainder if and only if no proper beginning of it is also its ending. |
| Census.EverySplitExactly | scripts/game-text-scale-validation.ts:9-38 | For one body: every split counts every match if and only if no two overlapping matches start on the same side of the last window. |
| Census.EverySplitCounts | scripts/game-text-scale-validation.ts:9-38 | The census never counts too many. |
| Census.OnlyPartialIsBordered | scripts/game-text-scale-validation.ts:60-126 | Of the twelve tokens the validation has counted, a token can overlap itself if and only if it is `"status":"partial"`. |
| Census.UniqueStart | scripts/game-text-scale-validation.ts:60-126 | A token that goes on unlike its beginning wherever it holds its first unit again is counted exactly. |
| Census.CountIn | scripts/game-text-scale-validation.ts:21-27 | The search loop counts the left-to-right matches without overlap that start in the window. |
| Census.Counter.Consume | scripts/game-text-scale-validation.ts:18-29 | One window: every count grows by the scan of the window and the carry is what starts too late to be complete. |
| Census.Counter.Feed | scripts/game-text-scale-validation.ts:30-36 | One read keeps counts, carry, size, and the first and last 64 units of what was fed. |
| Census.CensusIsTrue | scripts/game-text-scale-validation.ts:10-38 | The counts a census reports are the numbers of matches in the whole text for every token without a border. |
| Census.CountFile | scripts/game-text-scale-validation.ts:10-38 | The whole census: bytes, the first and last 64 units of the chunks, and the specified count for each token. |
| Shrinker.CandidatesAreDeletions | scripts/columnar-join-fuzz.test-support.ts:433-470 | Each phase tries every single deletion of its kind and nothing else. |
| Shrinker.PhaseMeans | scripts/columnar-join-fuzz.test-support.ts:418-432 | A phase keeps failure, only deletes, spends at most one attempt over the budget, and ends with no failing single deletion unless the budget ended it. |
| Shrinker.ShrinkerIsSound | scripts/columnar-join-fuzz.test-support.ts:411-472 | A failing input stays failing, every phase only deletes its own kind, and an unbounded result had every phase end minimal and is minimal in PO rows. |
| Shrinker.MinimalExactly | scripts/columnar-join-fuzz.test-support.ts:411-472 | An unbounded result is minimal in a kind if and only if no failing single deletion of that kind passes once the later deletions are put back. |
| Shrinker.MinimalInEveryKind | scripts/columnar-join-fuzz.test-support.ts:411-472 | Where putting back never cures a failure, every unbounded result is minimal in all five kinds. |
| Shrinker.DeletionsSwap | scripts/columnar-join-fuzz.test-support.ts:433-470 | A deletion of an earlier kind after one of a later kind could have been made before it. |
| Shrinker.OnlyIsNotClosed | scripts/columnar-join-fuzz.test-support.ts:411-472 | Closure is not necessary: putting anything back to a single failing input cures it, |
| Shrinker.OnlyIsMinimal | scripts/columnar-join-fuzz.test-support.ts:411-472 | and yet every unbounded result under that failure is minimal in all five kinds. |
| Shrinker.LastPhaseReopensFirst | scripts/columnar-join-fuzz.test-support.ts:433-472 | An input whose unbounded result is not minimal in records: a later phase reopened the first. |
| Shrinker.TryEach | scripts/columnar-join-fuzz.test-support.ts:422-430 | The inner loop finds the first failing candidate the budget allows. |
| Shrinker.Reduce | scripts/columnar-join-fuzz.test-support.ts:418-432 | The two loops of one phase, with the number of times the predicate was asked. |
| Shrinker.Shrink | scripts/columnar-join-fuzz.test-support.ts:411-472 | The whole shrinker; the predicate is never asked more often than the budget. |
| Differ.QuietExactly | scripts/columnar-join-fuzz.test-support.ts:721-747 | Nothing is reported if and only if both values show the same on every path, absent members reading as undefined and named string lists compared sorted where both sides are string lists. |
| Differ.ReportIsDifference | scripts/columnar-join-fuzz.test-support.ts:721-747 | Every report names a path where the two show different things, and carries them. |
| Differ.DifferenceIsReported | scripts/columnar-join-fuzz.test-support.ts:721-747 | Of every path with a difference, a beginning is reported. |
| Differ.QuietIsSameReading | scripts/columnar-join-fuzz.test-support.ts:721-747 | Silence is equality of two readings, each made from one side alone, where both sides are mild (no unordered list holds two different strings and trails off into undefined) or the left one is steady (mild, its unordered string lists sorted). |
| Differ.ReadingExactly | scripts/columnar-join-fuzz.test-support.ts:721-747 | A left side is compared as it reads with every right side if and only if it is steady. |
| Differ.UnsteadyParts | scripts/columnar-join-fuzz.test-support.ts:721-747 | Beside every other value there is one where report and reading part. |
| Differ.UndefinedBreaksOrder | scripts/columnar-join-fuzz.test-support.ts:722-729 | With such an entry it is not even transitive: three lists, two silences and a report. |
| Differ.SortsAlike | scripts/columnar-join-fuzz.test-support.ts:727-728 | Two string lists sort alike exactly when they hold the same strings equally often. |
| Differ.Report.Add | scripts/columnar-join-fuzz.test-support.ts:721-747 | The nested calls push exactly the specified reports in order. |
| StageTimings.CoveredMs | scripts/game-text-stage-timings.ts:24-38 | For spans that end no earlier than they start, the sum is the number of instants at least one of them covers. |
| StageTimings.SameSpansSameUnion | scripts/game-text-stage-timings.ts:23-38 | That number depends only on which spans there are, not on order or repetition. |
| StageTimings.AtLeastLongest | scripts/game-text-stage-timings.ts:23-38 | It is at least the longest span. |
| StageTimings.AtMostSum | scripts/game-text-stage-timings.ts:23-38 | It is at most the sum, and the sum exactly when no two spans overlap. |
| EngineStage.EveryState | scripts/game-text-engine-stage.ts:812-828 | In every reachable state, whatever the interleaving: each claimed index is stored with its own value or held by the worker that claimed it. |
| EngineStage.NoIndexTwice | scripts/game-text-engine-stage.ts:812-828 | In every reachable state no index is held by two workers and at most min(concurrency, items) reads are under way. |
| EngineStage.ClaimsStay | scripts/game-text-engine-stage.ts:819-825 | Claims and stored values are never undone or made again. |
| EngineStage.DoneMeansMapped | scripts/game-text-engine-stage.ts:812-828 | When all workers are done the values are the reads in item order, exactly unless the pool has no worker and something to read. |
| EngineStage.FailureIsReal | scripts/game-text-engine-stage.ts:812-828 | A worker that ended in a failure had a failing read, and what is stored is right all the same. |
| EngineStage.EveryRunEnds | scripts/game-text-engine-stage.ts:812-828 | Every run has at most items plus workers steps, each using up exactly one. |
| EngineStage.NeverStuck | scripts/game-text-engine-stage.ts:812-828 | A worker that has not ended can always go on. |
| Reach.ClosedIsReachable | scripts/check-effect-architecture.ts:1050-1093 | A set of reachable nodes that holds the roots and all successors is exactly the reachable ones. |
| BrowserClosure.CheckClosures | scripts/check-effect-architecture.ts:1041-1094 | The worklist visits exactly the sources reachable from the roots, each once, and reports the violations of those it can read in visiting order. |
| BrowserClosure.ReportedExactly | scripts/check-effect-architecture.ts:1041-1094 | A failure is reported if and only if some reachable readable module has it. |
| BrowserClosure.CleanExactly | scripts/check-effect-architecture.ts:1026-1094 | The check is clean if and only if every reachable readable module is safe. |
| BrowserClosure.SourcesAre | scripts/check-effect-architecture.ts:1083-1090 | Which imports are followed: resolved relative ones, and resolved workspace entries not guarded elsewhere. |
| BrowserClosure.Inspect | scripts/check-effect-architecture.ts:1061-1093 | One module: its failures in order and the sources it pushes. |
| CiScope.Walk.Visit | scripts/ci-scope.ts:20-36 | The recursive visit adds reachable names only, and everything it adds has its successors visited. |
| CiScope.SiteWorkspaceDirectories | scripts/ci-scope.ts:15-40 | One directory for each workspace the website reaches, the website first; the only failure is a missing website. |
| ScaleSafety.ChildWorkingSet | scripts/game-text-scale-safety.ts:75-98 | The loop ends with exactly the descendants of the process and sums each of their rows once. |
| ScaleSafety.Pass | scripts/game-text-scale-safety.ts:81-93 | One pass adds only descendants; a pass that adds nothing has found every child. |
| ScaleSafety.TableOrderIrrelevant | scripts/game-text-scale-safety.ts:75-98 | The order of the process table decides neither who is counted nor the sum. |
| SavedOracle.CompareSavedOracle | scripts/columnar-join-measure.ts:132-236 | It accepts if and only if the header agrees, the oracle has distinct ids, and the stored lines are a permutation of its lines, for every count and however ids repeat across pages. |
| SavedOracle.ComparePages | scripts/columnar-join-measure.ts:200-221 | All pages match exactly while the stored lines are distinct oracle lines; a page that does not match condemns the store. |
| SavedOracle.PageStep | scripts/columnar-join-measure.ts:201-220 | Given good lines so far, a page compares equal to what is still expected exactly when the lines stay good. |
| SavedOracle.NothingLeft | scripts/columnar-join-measure.ts:222-225 | With all pages matched, nothing is left exactly when the store is a permutation. |
| SavedOracle.CompareLines | scripts/localization-join-oracle.test-support.ts:44-96 | The comparison by id is equal exactly when neither side repeats an id and both hold the same lines. |
| SavedOracle.Load | scripts/columnar-join-measure.ts:141-145 | The saved lines by id; a repeated id stops the comparison. |
| BuildStamp.HashedOnce | scripts/build-stamp.ts:27-46 | For inputs without NUL the hashed text determines the records it was made of. |
| BuildStamp.SameTextSameInputs | scripts/build-stamp.ts:27-46 | Two fingerprints are taken of the same text if and only if the values and the walked paths, sizes and times are the same in order. |
| BuildStamp.NulConfuses | scripts/build-stamp.ts:29-43 | With a NUL one value can spell two. |
| BuildStamp.Fingerprint.Visit | scripts/build-stamp.ts:30-44 | The recursive walk feeds the records of its path, build outputs left out. |
| BuildStamp.BuildInputStamp | scripts/build-stamp.ts:27-46 | The text fed to the hash: values first, then every input. |
| BuildSkip.SkipIsSafe | scripts/build-stamp.ts:82-106 | In every run, with failures, crashes anywhere and half-written stamps, a skip has a completed build of its own stamp behind it and no build started since. |
| BuildSkip.EveryState | scripts/build-stamp.ts:93-105 | In every state of every run: a stamp on file, whole or in part, is that of the last build, which completed. |
| BuildSkip.InterruptedBuildsRerun | scripts/build-stamp.ts:78-105 | A build that failed or was interrupted is built again by the next call, whatever its stamp. |
| BuildSkip.WrittenStampSkips | scripts/build-stamp.ts:93-105 | After a write the same call skips. |
| BuildSkip.PartReadsAs | scripts/build-stamp.ts:96-105 | A half-written stamp never passes for a stamp, except the whole one without its line end. |
| CorpusOwnership.AcceptsExactly | scripts/game-text-corpus-ownership.ts:33-99 | Under the written receipt a clean is accepted if and only if no directory has the path of the configuration and the files are those recorded with the digests recorded, but for recorded files of the two trees that have become directories. |
| CorpusOwnership.ConfigurationRefused | scripts/game-text-corpus-ownership.ts:44-68 | A directory with the path of the configuration counts as output and turns every clean down, whatever is recorded. |
| CorpusOwnership.DirectoryUnnoticed | scripts/game-text-corpus-ownership.ts:33-75 | A recorded file that becomes a directory turns an accepted clean down if and only if it is the configuration. |
| CorpusOwnership.DirectoryExample | scripts/game-text-corpus-ownership.ts:33-75 | A disk where a recorded table has become a directory, and the clean is accepted. |
| CorpusOwnership.AcceptsSameFiles | scripts/game-text-corpus-ownership.ts:33-99 | Where no recorded file has become a directory, acceptance is equality of the two path-to-digest maps and no directory in place of the configuration. |
| CorpusOwnership.OwnReceiptAccepted | scripts/game-text-corpus-ownership.ts:77-99 | Right after writing, a clean is accepted if and only if no other file bears the receipt's name. |
| CorpusOwnership.ChangesAreRefused | scripts/game-text-corpus-ownership.ts:63-71 | An edited, new or missing file turns the clean down. |
| CorpusOwnership.Project.Prepare | scripts/game-text-corpus-ownership.ts:33-75 | The outcome in every case, a directory in place of the configuration included; a refusal leaves the disk as it was, and an accepted clean removes the corpus output and nothing else. |
| CorpusOwnership.Project.WriteOwnership | scripts/game-text-corpus-ownership.ts:77-99 | The receipt records every corpus file but those with its name; without the configuration file, or with a directory where the receipt goes, nothing is written. |
| MachineLease.EveryState | scripts/game-text-corpus-lock.ts:7-33 | In every state of every run with any number of processes: the lock file is there exactly while one process holds the lease, and it is its own. |
| MachineLease.MutualExclusion | scripts/game-text-corpus-lock.ts:14-33 | In every reachable state at most one process holds the lease. |
| MachineLease.FileMeansHolder | scripts/game-text-corpus-lock.ts:14-33 | The file exists exactly while there is a holder, running, crashed or stuck in its cleanup. |
| MachineLease.OnlyTheHolderRemoves | scripts/game-text-corpus-lock.ts:26-32 | Whoever removes the file removes its own, whether its operation returned or threw. |
| MachineLease.RemovalFindsFile | scripts/game-text-corpus-lock.ts:29-32 | A process about to remove always finds its own file there. |
| MachineLease.FreeAtTheEnd | scripts/game-text-corpus-lock.ts:26-32 | When everyone has finished the path is free. |
| MachineLease.WaiterGetsIn | scripts/game-text-corpus-lock.ts:15-25 | The next try of a waiting process succeeds exactly when no one holds the lease. |
| MachineLease.GivesUpLate | scripts/game-text-engine-lock.ts:10-22 | Only the benchmark lock gives up, not before two hours, and never while holding the lease. |

## Left out

- BlueprintRoundTrip.ParseExport: the graph schema is a parameter that accepts or refuses whole nodes, pins and graphs; the stripping of unknown keys by the schema decoder and a position of minus zero are not modelled, and positions are integers.
- Rendering of graphs as SVG pages or Mermaid overviews: user interface.
- AnswerDigest.EngineAnswerDigest: functions, symbols, big integers and `toJSON` methods inside answers are not modelled, and numbers are the tokens they print as.
- `assertEngineAnswers`, `engineStatistics` and `engineRequestOverhead`: lookups, quantiles and sums that would only add easy members.
- Wtf8.EncodeDecode: the platform's UTF-8 codec on texts without lone surrogates is taken to do what the two loops do.
- JoinStore.PublishMeans: string blocks are lists of strings, not bytes to decode; record offsets and checksums are left out, and ids are not cut off at 32 bits.
- CorpusPlanner.Planner.EditPlan: packages and texts are values addressed by place, so two names for one text object are not modelled; the wording of background texts is a parameter; a culture's findings are left out, and a text's `absent` list.
- CorpusPlacement.PlaceCorpus: recipes, rule composition, role scopes and the `collapse` scenario are left out; the field `exists` is called `present`.
- Recipe literals, finding fixes and expectations of the planner: data and bookkeeping.
- Substitution.ReplaceAround: replacement patterns that start with a dollar sign are not modelled; no value the constructor draws holds one.
- SubstitutionStages.Substitute: the word and value lists are parameters; `SubstitutionWords` gives the constructor's own. Swapping of culture names in record keys is left out.
- Census.CountFile: the decoder is left out: its texts for the chunks and its final remainder are inputs; tokens are distinct and not empty, as the keys the caller passes are.
- Shrinker.Shrink: the predicate is a function of its input, asked one candidate at a time; a predicate whose answers change is not modelled.
- Differ.QuietExactly: members inherited from the object prototype and array holes apart from undefined are not modelled, and numbers are tokens.
- StageTimings.CoveredMs: nanoseconds are integers; the final division to milliseconds is left out.
- EngineStage.DoneMeansMapped: a step lasts from one await to the next; the values array has one slot for each item from the start, where the source leaves it sparse.
- `openGroupRows`, the measurement depth and pending hashes of the stage runner: chunking by twenty and counters that would only add easy members.
- BrowserClosure.CheckClosures: which specifier is forbidden, relative, of the workspace, allowed or unreviewed, what it resolves to, and whether a module uses `process`, are given; folders and entry subpaths are given as roots.
- CiScope.SiteWorkspaceDirectories: the four dependency sections are one list of names.
- ScaleSafety.ChildWorkingSet: the table is already split into numbers; malformed rows and the Windows branch are left out.
- SavedOracle.CompareSavedOracle: the canonical form of a line and the header comparison are inputs; the conflict statistics are left out.
- SavedOracle.CompareLines: the field-by-field comparison of two lines is folded into equality of a given canonical form.
- BuildStamp.BuildInputStamp: the file tree does not change during the walk, directory entries come sorted, and paths are joined with a slash.
- BuildSkip.SkipIsSafe: calls come one after the other; two processes building at once are not modelled, and the source does not guard against them.
- CorpusOwnership.Project.WriteOwnership: receipt paths are already resolved; the spelling with forward slashes and its way back are left out, a directory walk lists what is there, and the folder the receipt goes into exists. The roots of the two trees are directories or absent, and links are left out.
- MachineLease.MutualExclusion: nothing else removes or creates the lock file, and what is written into it is left out.
- Process spawning, timers, sampling, measurement, Effect layers and Unreal commandlets: input and output plumbing.
