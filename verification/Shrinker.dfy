/**
 * The bounded shrinker of failing join inputs: five phases of single deletions, each keeping the first
 * candidate that still fails, under one budget of attempts.
 */
module Shrinker {
  import opened Basics
  import opened Utf16

  type Row = Text
  datatype Record = Record(head: Text, occurrences: seq<Text>)
  datatype Input = Input(records: seq<Record>, manifest: seq<Row>, archives: seq<seq<Row>>, pos: seq<seq<Row>>,
                         rest: Text)
  datatype Phase = Records | Occurrences | Manifest | Archives | Pos

  const PHASES: seq<Phase> := [Records, Occurrences, Manifest, Archives, Pos]

  function Without<T>(s: seq<T>, i: nat): seq<T>
    requires i < |s|
  {
    s[..i] + s[i + 1..]
  }

  // ---------------------------------------------------------------------------------------------
  // Candidates

  function DropRecord(v: Input, i: nat): Input
    requires i < |v.records|
  {
    v.(records := Without(v.records, i))
  }

  function DropOccurrence(v: Input, i: nat, j: nat): Input
    requires i < |v.records| && j < |v.records[i].occurrences|
  {
    v.(records := v.records[i := v.records[i].(occurrences := Without(v.records[i].occurrences, j))])
  }

  function DropRow(rows: seq<seq<Row>>, i: nat, j: nat): seq<seq<Row>>
    requires i < |rows| && j < |rows[i]|
  {
    rows[i := Without(rows[i], j)]
  }

  /** The candidates of one record, in order: one per occurrence from j on. */
  function OccurrenceDrops(v: Input, i: nat, j: nat): seq<Input>
    requires i < |v.records| && j <= |v.records[i].occurrences|
    decreases |v.records[i].occurrences| - j
  {
    if j == |v.records[i].occurrences| then [] else [DropOccurrence(v, i, j)] + OccurrenceDrops(v, i, j + 1)
  }

  function AllOccurrenceDrops(v: Input, i: nat): seq<Input>
    requires i <= |v.records|
    decreases |v.records| - i
  {
    if i == |v.records| then [] else OccurrenceDrops(v, i, 0) + AllOccurrenceDrops(v, i + 1)
  }

  function RowDrops(rows: seq<seq<Row>>, i: nat, j: nat): seq<seq<seq<Row>>>
    requires i < |rows| && j <= |rows[i]|
    decreases |rows[i]| - j
  {
    if j == |rows[i]| then [] else [DropRow(rows, i, j)] + RowDrops(rows, i, j + 1)
  }

  function AllRowDrops(rows: seq<seq<Row>>, i: nat): seq<seq<seq<Row>>>
    requires i <= |rows|
    decreases |rows| - i
  {
    if i == |rows| then [] else RowDrops(rows, i, 0) + AllRowDrops(rows, i + 1)
  }

  /** What one phase tries, in order. */
  function Candidates(phase: Phase, v: Input): seq<Input> {
    match phase
    case Records => seq(|v.records|, i requires 0 <= i < |v.records| => DropRecord(v, i))
    case Occurrences => AllOccurrenceDrops(v, 0)
    case Manifest => seq(|v.manifest|, i requires 0 <= i < |v.manifest| => v.(manifest := Without(v.manifest, i)))
    case Archives =>
      var drops := AllRowDrops(v.archives, 0);
      seq(|drops|, i requires 0 <= i < |drops| => v.(archives := drops[i]))
    case Pos =>
      var drops := AllRowDrops(v.pos, 0);
      seq(|drops|, i requires 0 <= i < |drops| => v.(pos := drops[i]))
  }

  /** One element less of the phase's kind, and nothing else changed. */
  ghost predicate Deletion(phase: Phase, v: Input, c: Input) {
    match phase
    case Records => exists i :: 0 <= i < |v.records| && c == DropRecord(v, i)
    case Occurrences =>
      exists i, j :: 0 <= i < |v.records| && 0 <= j < |v.records[i].occurrences| && c == DropOccurrence(v, i, j)
    case Manifest => exists i :: 0 <= i < |v.manifest| && c == v.(manifest := Without(v.manifest, i))
    case Archives =>
      exists i, j :: 0 <= i < |v.archives| && 0 <= j < |v.archives[i]| && c == v.(archives := DropRow(v.archives, i, j))
    case Pos => exists i, j :: 0 <= i < |v.pos| && 0 <= j < |v.pos[i]| && c == v.(pos := DropRow(v.pos, i, j))
  }

  lemma {:induction false} OccurrenceDropsAre(v: Input, i: nat, j: nat, c: Input)
    requires i < |v.records| && j <= |v.records[i].occurrences|
    ensures c in OccurrenceDrops(v, i, j) <==>
      exists k :: j <= k < |v.records[i].occurrences| && c == DropOccurrence(v, i, k)
    decreases |v.records[i].occurrences| - j
  {
    if j < |v.records[i].occurrences| {
      OccurrenceDropsAre(v, i, j + 1, c);
    }
  }

  ghost predicate DropsIn(v: Input, i: nat, c: Input) {
    i < |v.records| && exists j :: 0 <= j < |v.records[i].occurrences| && c == DropOccurrence(v, i, j)
  }

  lemma {:induction false} AllOccurrenceDropsAre(v: Input, i: nat, c: Input)
    requires i <= |v.records|
    ensures c in AllOccurrenceDrops(v, i) <==> exists k :: i <= k < |v.records| && DropsIn(v, k, c)
    decreases |v.records| - i
  {
    if i < |v.records| {
      AllOccurrenceDropsAre(v, i + 1, c);
      OccurrenceDropsAre(v, i, 0, c);
      assert DropsIn(v, i, c) <==> c in OccurrenceDrops(v, i, 0);
    }
  }

  lemma {:induction false} RowDropsAre(rows: seq<seq<Row>>, i: nat, j: nat, c: seq<seq<Row>>)
    requires i < |rows| && j <= |rows[i]|
    ensures c in RowDrops(rows, i, j) <==> exists k :: j <= k < |rows[i]| && c == DropRow(rows, i, k)
    decreases |rows[i]| - j
  {
    if j < |rows[i]| {
      RowDropsAre(rows, i, j + 1, c);
    }
  }

  ghost predicate RowDropsIn(rows: seq<seq<Row>>, i: nat, c: seq<seq<Row>>) {
    i < |rows| && exists j :: 0 <= j < |rows[i]| && c == DropRow(rows, i, j)
  }

  lemma {:induction false} AllRowDropsAre(rows: seq<seq<Row>>, i: nat, c: seq<seq<Row>>)
    requires i <= |rows|
    ensures c in AllRowDrops(rows, i) <==> exists k :: i <= k < |rows| && RowDropsIn(rows, k, c)
    decreases |rows| - i
  {
    if i < |rows| {
      AllRowDropsAre(rows, i + 1, c);
      RowDropsAre(rows, i, 0, c);
      assert RowDropsIn(rows, i, c) <==> c in RowDrops(rows, i, 0);
    }
  }

  lemma RowCandidates(rows: seq<seq<Row>>, c: seq<seq<Row>>)
    ensures c in AllRowDrops(rows, 0) <==>
      exists i, j :: 0 <= i < |rows| && 0 <= j < |rows[i]| && c == DropRow(rows, i, j)
  {
    AllRowDropsAre(rows, 0, c);
    if c in AllRowDrops(rows, 0) {
      var k :| 0 <= k < |rows| && RowDropsIn(rows, k, c);
    }
    forall i, j | 0 <= i < |rows| && 0 <= j < |rows[i]| && c == DropRow(rows, i, j)
      ensures c in AllRowDrops(rows, 0)
    {
      assert RowDropsIn(rows, i, c);
    }
  }

  /** A phase tries every single deletion of its kind, and nothing else. */
  lemma CandidatesAreDeletions(phase: Phase, v: Input, c: Input)
    ensures c in Candidates(phase, v) <==> Deletion(phase, v, c)
  {
    match phase
    case Records =>
      RecordCandidates(v, c);
    case Occurrences =>
      AllOccurrenceDropsAre(v, 0, c);
      OccurrenceCandidates(v, c);
    case Manifest =>
      ManifestCandidates(v, c);
    case Archives =>
      ArchiveCandidates(v, c);
    case Pos =>
      PoCandidates(v, c);
  }

  lemma OccurrenceCandidates(v: Input, c: Input)
    ensures (exists k :: 0 <= k < |v.records| && DropsIn(v, k, c)) <==> Deletion(Occurrences, v, c)
  {
    if Deletion(Occurrences, v, c) {
      var i, j :| 0 <= i < |v.records| && 0 <= j < |v.records[i].occurrences| && c == DropOccurrence(v, i, j);
      assert DropsIn(v, i, c);
    }
  }

  lemma RecordCandidates(v: Input, c: Input)
    ensures c in Candidates(Records, v) <==> Deletion(Records, v, c)
  {
    var drops := Candidates(Records, v);
    if Deletion(Records, v, c) {
      var i :| 0 <= i < |v.records| && c == DropRecord(v, i);
      assert drops[i] == c;
    }
  }

  lemma ManifestCandidates(v: Input, c: Input)
    ensures c in Candidates(Manifest, v) <==> Deletion(Manifest, v, c)
  {
    var drops := Candidates(Manifest, v);
    if Deletion(Manifest, v, c) {
      var i :| 0 <= i < |v.manifest| && c == v.(manifest := Without(v.manifest, i));
      assert drops[i] == c;
    }
  }

  lemma ArchiveCandidates(v: Input, c: Input)
    ensures c in Candidates(Archives, v) <==> Deletion(Archives, v, c)
  {
    RowCandidates(v.archives, c.archives);
    var drops := AllRowDrops(v.archives, 0);
    if c in Candidates(Archives, v) {
      var i :| 0 <= i < |drops| && c == v.(archives := drops[i]);
      assert c.archives in drops;
    }
    if Deletion(Archives, v, c) {
      assert c.archives in drops;
      var i :| 0 <= i < |drops| && drops[i] == c.archives;
      assert Candidates(Archives, v)[i] == c;
    }
  }

  lemma PoCandidates(v: Input, c: Input)
    ensures c in Candidates(Pos, v) <==> Deletion(Pos, v, c)
  {
    RowCandidates(v.pos, c.pos);
    var drops := AllRowDrops(v.pos, 0);
    if c in Candidates(Pos, v) {
      var i :| 0 <= i < |drops| && c == v.(pos := drops[i]);
      assert c.pos in drops;
    }
    if Deletion(Pos, v, c) {
      assert c.pos in drops;
      var i :| 0 <= i < |drops| && drops[i] == c.pos;
      assert Candidates(Pos, v)[i] == c;
    }
  }

  // ---------------------------------------------------------------------------------------------
  // Size

  function OccurrenceCount(records: seq<Record>): nat {
    if records == [] then 0 else |records[0].occurrences| + OccurrenceCount(records[1..])
  }

  function RowCount(rows: seq<seq<Row>>): nat {
    if rows == [] then 0 else |rows[0]| + RowCount(rows[1..])
  }

  /** Everything the shrinker can delete. */
  function Size(v: Input): nat {
    |v.records| + OccurrenceCount(v.records) + |v.manifest| + RowCount(v.archives) + RowCount(v.pos)
  }

  lemma {:induction false} OccurrencesWithout(records: seq<Record>, i: nat)
    requires i < |records|
    ensures OccurrenceCount(Without(records, i)) <= OccurrenceCount(records)
  {
    if i == 0 {
      assert Without(records, i) == records[1..];
    } else {
      OccurrencesWithout(records[1..], i - 1);
      assert Without(records, i)[1..] == Without(records[1..], i - 1);
    }
  }

  lemma {:induction false} OccurrencesUpdate(records: seq<Record>, i: nat, r: Record)
    requires i < |records| && |r.occurrences| < |records[i].occurrences|
    ensures OccurrenceCount(records[i := r]) < OccurrenceCount(records)
  {
    if i == 0 {
      assert records[i := r][1..] == records[1..];
    } else {
      OccurrencesUpdate(records[1..], i - 1, r);
      assert records[i := r][1..] == records[1..][i - 1 := r];
    }
  }

  lemma {:induction false} RowsUpdate(rows: seq<seq<Row>>, i: nat, r: seq<Row>)
    requires i < |rows| && |r| < |rows[i]|
    ensures RowCount(rows[i := r]) < RowCount(rows)
  {
    if i == 0 {
      assert rows[i := r][1..] == rows[1..];
    } else {
      RowsUpdate(rows[1..], i - 1, r);
      assert rows[i := r][1..] == rows[1..][i - 1 := r];
    }
  }

  lemma CandidatesShrink(phase: Phase, v: Input, c: Input)
    requires c in Candidates(phase, v)
    ensures Size(c) < Size(v) && c.rest == v.rest
  {
    CandidatesAreDeletions(phase, v, c);
    match phase
    case Records =>
      var i :| 0 <= i < |v.records| && c == DropRecord(v, i);
      OccurrencesWithout(v.records, i);
    case Occurrences =>
      var i, j :| 0 <= i < |v.records| && 0 <= j < |v.records[i].occurrences| && c == DropOccurrence(v, i, j);
      OccurrencesUpdate(v.records, i, c.records[i]);
    case Manifest =>
    case Archives =>
      var i, j :| 0 <= i < |v.archives| && 0 <= j < |v.archives[i]| && c == v.(archives := DropRow(v.archives, i, j));
      RowsUpdate(v.archives, i, Without(v.archives[i], j));
    case Pos =>
      var i, j :| 0 <= i < |v.pos| && 0 <= j < |v.pos[i]| && c == v.(pos := DropRow(v.pos, i, j));
      RowsUpdate(v.pos, i, Without(v.pos[i], j));
  }

  // ---------------------------------------------------------------------------------------------
  // One phase

  datatype Progress = Progress(current: Input, attempts: nat)

  function FirstFailing(cs: seq<Input>, fails: Input -> bool): (k: nat)
    ensures k <= |cs| && (k < |cs| ==> fails(cs[k])) && forall i | 0 <= i < k :: !fails(cs[i])
  {
    if cs == [] then 0
    else if fails(cs[0]) then 0
    else 1 + FirstFailing(cs[1..], fails)
  }

  /** One round of candidates: whether one was taken up, and the progress after it. */
  function Tried(phase: Phase, p: Progress, budget: nat, fails: Input -> bool): (bool, Progress) {
    var cs := Candidates(phase, p.current);
    var k := FirstFailing(cs, fails);
    if k < |cs| && p.attempts + k + 1 <= budget then (true, Progress(cs[k], p.attempts + k + 1))
    else (false, Progress(p.current, Min(p.attempts + |cs|, budget + 1)))
  }

  lemma TriedShrinks(phase: Phase, p: Progress, budget: nat, fails: Input -> bool)
    ensures Tried(phase, p, budget, fails).0 ==> Size(Tried(phase, p, budget, fails).1.current) < Size(p.current)
  {
    var cs := Candidates(phase, p.current);
    var k := FirstFailing(cs, fails);
    if k < |cs| {
      CandidatesShrink(phase, p.current, cs[k]);
    }
  }

  /** A phase: the first failing candidate again and again, while the budget lasts. */
  function Reduced(phase: Phase, p: Progress, budget: nat, fails: Input -> bool): Progress
    decreases Size(p.current)
  {
    TriedShrinks(phase, p, budget, fails);
    if p.attempts >= budget then p
    else if Tried(phase, p, budget, fails).0 then Reduced(phase, Tried(phase, p, budget, fails).1, budget, fails)
    else Tried(phase, p, budget, fails).1
  }

  /** What is left after a phase when single deletions of its kind all pass. */
  ghost predicate Minimal(phase: Phase, v: Input, fails: Input -> bool) {
    forall c | Deletion(phase, v, c) :: !fails(c)
  }

  /** A number of deletions of one phase's kind that lead from one input to the other. */
  ghost predicate Deletes(phase: Phase, v: Input, c: Input, steps: nat)
    decreases steps
  {
    if steps == 0 then v == c
    else exists next :: Deletion(phase, v, next) && Deletes(phase, next, c, steps - 1)
  }

  ghost predicate Reaches(phase: Phase, v: Input, c: Input) {
    exists steps: nat :: Deletes(phase, v, c, steps)
  }

  lemma ReachesSelf(phase: Phase, v: Input)
    ensures Reaches(phase, v, v)
  {
    assert Deletes(phase, v, v, 0);
  }

  lemma ReachesNext(phase: Phase, v: Input, next: Input, c: Input)
    requires Deletion(phase, v, next) && Reaches(phase, next, c)
    ensures Reaches(phase, v, c)
  {
    var steps: nat :| Deletes(phase, next, c, steps);
    assert Deletes(phase, v, c, steps + 1);
  }

  lemma NoneFails(phase: Phase, v: Input, fails: Input -> bool)
    requires FirstFailing(Candidates(phase, v), fails) == |Candidates(phase, v)|
    ensures Minimal(phase, v, fails)
  {
    var cs := Candidates(phase, v);
    forall c | Deletion(phase, v, c)
      ensures !fails(c)
    {
      CandidatesAreDeletions(phase, v, c);
      var i :| 0 <= i < |cs| && cs[i] == c;
    }
  }

  lemma ReducedUnfolds(phase: Phase, p: Progress, budget: nat, fails: Input -> bool)
    requires p.attempts < budget
    ensures var (taken, next) := Tried(phase, p, budget, fails);
      Reduced(phase, p, budget, fails) == if taken then Reduced(phase, next, budget, fails) else next
  {
  }

  /** A candidate taken up is a failing deletion. */
  lemma TriedTakes(phase: Phase, p: Progress, budget: nat, fails: Input -> bool)
    requires Tried(phase, p, budget, fails).0
    ensures var next := Tried(phase, p, budget, fails).1;
      && Size(next.current) < Size(p.current) && next.current.rest == p.current.rest
      && fails(next.current) && Deletion(phase, p.current, next.current)
      && p.attempts < next.attempts <= budget
  {
    var next := Tried(phase, p, budget, fails).1;
    CandidatesShrink(phase, p.current, next.current);
    CandidatesAreDeletions(phase, p.current, next.current);
  }

  /** A round that takes nothing up leaves the input, minimal unless the budget ended the round. */
  lemma TriedStops(phase: Phase, p: Progress, budget: nat, fails: Input -> bool)
    requires p.attempts < budget && !Tried(phase, p, budget, fails).0
    ensures var next := Tried(phase, p, budget, fails).1;
      && next.current == p.current && p.attempts <= next.attempts <= budget + 1
      && (next.attempts < budget ==> Minimal(phase, p.current, fails))
  {
    var cs := Candidates(phase, p.current);
    if FirstFailing(cs, fails) == |cs| {
      NoneFails(phase, p.current, fails);
    }
  }

  /**
   * A phase keeps failure, only deletes, overspends by at most the attempt that found the budget gone, and
   * ends minimal unless the budget ended it.
   */
  ghost predicate Sound(phase: Phase, p: Progress, r: Progress, budget: nat, fails: Input -> bool) {
    && (fails(p.current) ==> fails(r.current))
    && Reaches(phase, p.current, r.current)
    && p.attempts <= r.attempts && (p.attempts <= budget + 1 ==> r.attempts <= budget + 1)
    && Size(r.current) <= Size(p.current) && r.current.rest == p.current.rest
    && (r.attempts < budget ==> Minimal(phase, r.current, fails))
  }

  lemma {:induction false} PhaseMeans(phase: Phase, p: Progress, budget: nat, fails: Input -> bool)
    ensures Sound(phase, p, Reduced(phase, p, budget, fails), budget, fails)
    decreases Size(p.current)
  {
    if p.attempts >= budget {
      ReachesSelf(phase, p.current);
    } else {
      var (taken, next) := Tried(phase, p, budget, fails);
      ReducedUnfolds(phase, p, budget, fails);
      if taken {
        TriedTakes(phase, p, budget, fails);
        PhaseMeans(phase, next, budget, fails);
        ReachesNext(phase, p.current, next.current, Reduced(phase, next, budget, fails).current);
      } else {
        TriedStops(phase, p, budget, fails);
        ReachesSelf(phase, p.current);
      }
    }
  }

  // ---------------------------------------------------------------------------------------------
  // The whole run

  /** The progress after the first n phases. */
  function After(v: Input, n: nat, budget: nat, fails: Input -> bool): Progress
    requires n <= |PHASES|
  {
    if n == 0 then Progress(v, 0) else Reduced(PHASES[n - 1], After(v, n - 1, budget, fails), budget, fails)
  }

  /** What is true after every number of phases, for every input, budget and failure. */
  lemma {:induction false} RunMeans(v: Input, n: nat, budget: nat, fails: Input -> bool)
    requires n <= |PHASES|
    ensures var r := After(v, n, budget, fails);
      && (fails(v) ==> fails(r.current)) && r.attempts <= budget + 1
      && Size(r.current) <= Size(v) && r.current.rest == v.rest
  {
    if n > 0 {
      RunMeans(v, n - 1, budget, fails);
      PhaseMeans(PHASES[n - 1], After(v, n - 1, budget, fails), budget, fails);
    }
  }

  lemma {:induction false} AttemptsGrow(v: Input, k: nat, n: nat, budget: nat, fails: Input -> bool)
    requires k <= n <= |PHASES|
    ensures After(v, k, budget, fails).attempts <= After(v, n, budget, fails).attempts
  {
    if k < n {
      AttemptsGrow(v, k, n - 1, budget, fails);
      PhaseMeans(PHASES[n - 1], After(v, n - 1, budget, fails), budget, fails);
    }
  }

  /** Phase k only deleted its own kind, and no single deletion of that kind still failed at its end. */
  ghost predicate EndsClean(v: Input, k: nat, budget: nat, fails: Input -> bool)
    requires 0 < k <= |PHASES|
  {
    Minimal(PHASES[k - 1], After(v, k, budget, fails).current, fails)
  }

  datatype Outcome = Outcome(input: Input, attempts: nat, bounded: bool)

  function Shrunk(v: Input, budget: nat, fails: Input -> bool): Outcome {
    var r := After(v, |PHASES|, budget, fails);
    Outcome(r.current, r.attempts, r.attempts >= budget)
  }

  /**
   * The shrinker: a failing input stays failing and only shrinks, phase by phase; unless it says so, the
   * budget cut no phase short, every phase ended minimal, and so the result is minimal in PO rows.
   */
  lemma ShrinkerIsSound(v: Input, budget: nat, fails: Input -> bool)
    ensures var r := Shrunk(v, budget, fails);
      && (fails(v) ==> fails(r.input)) && r.attempts <= budget + 1
      && Size(r.input) <= Size(v) && r.input.rest == v.rest
      && (!r.bounded ==> Minimal(Pos, r.input, fails))
      && (!r.bounded ==> forall k | 0 < k <= |PHASES| :: EndsClean(v, k, budget, fails))
    ensures forall k | 0 < k <= |PHASES| ::
      Reaches(PHASES[k - 1], After(v, k - 1, budget, fails).current, After(v, k, budget, fails).current)
  {
    RunMeans(v, |PHASES|, budget, fails);
    forall k | 0 < k <= |PHASES|
      ensures Reaches(PHASES[k - 1], After(v, k - 1, budget, fails).current, After(v, k, budget, fails).current)
      ensures After(v, |PHASES|, budget, fails).attempts < budget ==> EndsClean(v, k, budget, fails)
    {
      PhaseMeans(PHASES[k - 1], After(v, k - 1, budget, fails), budget, fails);
      AttemptsGrow(v, k, |PHASES|, budget, fails);
    }
    assert EndsClean(v, |PHASES|, budget, fails) <==>
      Minimal(Pos, After(v, |PHASES|, budget, fails).current, fails);
  }

  // ---------------------------------------------------------------------------------------------
  // Minimal in every kind

  /** The part of an input that one kind of deletion touches, taken from another input. */
  function TakePart(phase: Phase, v: Input, other: Input): Input {
    match phase
    case Records => v.(records := other.records)
    case Occurrences => v.(records := other.records)
    case Manifest => v.(manifest := other.manifest)
    case Archives => v.(archives := other.archives)
    case Pos => v.(pos := other.pos)
  }

  /** A deletion looks at its own part only and leaves the rest. */
  lemma DeletionInPart(phase: Phase, v: Input, c: Input, w: Input)
    requires Deletion(phase, v, c) && TakePart(phase, w, v) == w
    ensures Deletion(phase, w, TakePart(phase, w, c)) && TakePart(phase, v, c) == c
  {
    match phase
    case Records =>
      var i :| 0 <= i < |v.records| && c == DropRecord(v, i);
      assert TakePart(phase, w, c) == DropRecord(w, i);
    case Occurrences =>
      var i, j :| 0 <= i < |v.records| && 0 <= j < |v.records[i].occurrences| && c == DropOccurrence(v, i, j);
      assert TakePart(phase, w, c) == DropOccurrence(w, i, j);
    case Manifest =>
      var i :| 0 <= i < |v.manifest| && c == v.(manifest := Without(v.manifest, i));
      assert TakePart(phase, w, c) == w.(manifest := Without(w.manifest, i));
    case Archives =>
      var i, j :| 0 <= i < |v.archives| && 0 <= j < |v.archives[i]| && c == v.(archives := DropRow(v.archives, i, j));
      assert TakePart(phase, w, c) == w.(archives := DropRow(w.archives, i, j));
    case Pos =>
      var i, j :| 0 <= i < |v.pos| && 0 <= j < |v.pos[i]| && c == v.(pos := DropRow(v.pos, i, j));
      assert TakePart(phase, w, c) == w.(pos := DropRow(w.pos, i, j));
  }

  /** The kinds other than records and occurrences have parts of their own. */
  predicate Apart(a: Phase, b: Phase) {
    a != b && !(a.Records? && b.Occurrences?) && !(a.Occurrences? && b.Records?)
  }

  lemma PartsApart(a: Phase, b: Phase, v: Input, w: Input, c: Input)
    requires Apart(a, b) && w == TakePart(b, v, w) && c == TakePart(a, w, c)
    ensures TakePart(a, v, w) == v
    ensures TakePart(b, TakePart(a, v, c), w) == c && TakePart(b, TakePart(a, v, c), v) == TakePart(a, v, c)
  {
  }

  /** A record deleted after an occurrence could have gone before it, and may take the occurrence along. */
  lemma RecordFirst(v: Input, i: nat, j: nat, r: nat) returns (c: Input)
    requires i < |v.records| && j < |v.records[i].occurrences| && r < |v.records|
    ensures c == DropRecord(v, r)
    ensures var after := DropRecord(DropOccurrence(v, i, j), r); c == after || Deletion(Occurrences, c, after)
  {
    c := DropRecord(v, r);
    var after := DropRecord(DropOccurrence(v, i, j), r);
    if r == i {
      assert after.records == c.records;
    } else {
      var k := if i < r then i else i - 1;
      assert c.records[k] == v.records[i];
      assert after.records == DropOccurrence(c, k, j).records;
      assert after == DropOccurrence(c, k, j);
    }
  }

  /** A deletion of an earlier kind could have been made before one of a later kind. */
  lemma DeletionsSwap(a: Phase, b: Phase, v: Input, w: Input, c: Input) returns (first: Input)
    requires Deletion(b, v, w) && Deletion(a, w, c) && (Apart(a, b) || (a.Records? && b.Occurrences?))
    ensures Deletion(a, v, first) && (first == c || Deletion(b, first, c))
  {
    if Apart(a, b) {
      DeletionInPart(b, v, w, v);
      DeletionInPart(a, w, c, w);
      PartsApart(a, b, v, w, c);
      DeletionInPart(a, w, c, v);
      first := TakePart(a, v, c);
      DeletionInPart(b, v, w, first);
    } else {
      var i, j :| 0 <= i < |v.records| && 0 <= j < |v.records[i].occurrences| && w == DropOccurrence(v, i, j);
      var r :| 0 <= r < |w.records| && c == DropRecord(w, r);
      first := RecordFirst(v, i, j, r);
    }
  }

  predicate Earlier(a: Phase, b: Phase) {
    exists i, j :: 0 <= i < j < |PHASES| && PHASES[i] == a && PHASES[j] == b
  }

  lemma EarlierSwaps(a: Phase, b: Phase)
    requires Earlier(a, b)
    ensures Apart(a, b) || (a.Records? && b.Occurrences?)
  {
  }

  lemma {:induction false} SwapSteps(a: Phase, b: Phase, v: Input, w: Input, c: Input, steps: nat)
    returns (first: Input)
    requires Earlier(a, b) && Deletes(b, v, w, steps) && Deletion(a, w, c)
    ensures Deletion(a, v, first) && Reaches(b, first, c)
    decreases steps
  {
    if steps == 0 {
      first := c;
      ReachesSelf(b, c);
    } else {
      var next :| Deletion(b, v, next) && Deletes(b, next, w, steps - 1);
      var second := SwapSteps(a, b, next, w, c, steps - 1);
      first := SwapStep(a, b, v, next, second, c);
    }
  }

  lemma SwapStep(a: Phase, b: Phase, v: Input, next: Input, second: Input, c: Input) returns (first: Input)
    requires Earlier(a, b) && Deletion(b, v, next) && Deletion(a, next, second) && Reaches(b, second, c)
    ensures Deletion(a, v, first) && Reaches(b, first, c)
  {
    EarlierSwaps(a, b);
    first := DeletionsSwap(a, b, v, next, second);
    if first != second {
      ReachesNext(b, first, second, c);
    }
  }

  /** What the phases from number k on can make of an input. */
  ghost predicate ReachesFrom(k: nat, v: Input, w: Input)
    requires k <= |PHASES|
    decreases |PHASES| - k
  {
    if k == |PHASES| then v == w else exists next :: Reaches(PHASES[k], v, next) && ReachesFrom(k + 1, next, w)
  }

  lemma {:induction false} SwapPhases(p: nat, k: nat, v: Input, w: Input, c: Input) returns (first: Input)
    requires p < k <= |PHASES| && ReachesFrom(k, v, w) && Deletion(PHASES[p], w, c)
    ensures Deletion(PHASES[p], v, first) && ReachesFrom(k, first, c)
    decreases |PHASES| - k
  {
    if k == |PHASES| {
      first := c;
    } else {
      var next :| Reaches(PHASES[k], v, next) && ReachesFrom(k + 1, next, w);
      var second := SwapPhases(p, k + 1, next, w, c);
      first := SwapPhase(p, k, v, next, second);
    }
  }

  lemma SwapPhase(p: nat, k: nat, v: Input, next: Input, second: Input) returns (first: Input)
    requires p < k < |PHASES| && Reaches(PHASES[k], v, next) && Deletion(PHASES[p], next, second)
    ensures Deletion(PHASES[p], v, first) && Reaches(PHASES[k], first, second)
  {
    var steps: nat :| Deletes(PHASES[k], v, next, steps);
    assert Earlier(PHASES[p], PHASES[k]);
    first := SwapSteps(PHASES[p], PHASES[k], v, next, second, steps);
  }

  /** The rest of a run, from the end of phase k on. */
  lemma {:induction false} RunReaches(v: Input, k: nat, budget: nat, fails: Input -> bool)
    requires k <= |PHASES|
    ensures ReachesFrom(k, After(v, k, budget, fails).current, After(v, |PHASES|, budget, fails).current)
    decreases |PHASES| - k
  {
    if k < |PHASES| {
      RunReaches(v, k + 1, budget, fails);
      PhaseMeans(PHASES[k], After(v, k, budget, fails), budget, fails);
    }
  }

  /**
   * Putting back what the phases after k deleted keeps the failure of the result's deletions of kind k:
   * `ended` is what phase k left.
   */
  ghost predicate FailsPutBack(k: nat, ended: Input, result: Input, fails: Input -> bool)
    requires 0 < k <= |PHASES|
  {
    forall c, first | Deletion(PHASES[k - 1], result, c) && Deletion(PHASES[k - 1], ended, first)
                      && ReachesFrom(k, first, c) && fails(c) :: fails(first)
  }

  /**
   * When an unbounded result is minimal in a kind: exactly when no failing deletion of that kind passes
   * once the later deletions are put back.
   */
  lemma MinimalExactly(v: Input, k: nat, budget: nat, fails: Input -> bool)
    requires 0 < k <= |PHASES| && !Shrunk(v, budget, fails).bounded
    ensures Minimal(PHASES[k - 1], Shrunk(v, budget, fails).input, fails) <==>
      FailsPutBack(k, After(v, k, budget, fails).current, Shrunk(v, budget, fails).input, fails)
  {
    var ended, result := After(v, k, budget, fails).current, Shrunk(v, budget, fails).input;
    ShrinkerIsSound(v, budget, fails);
    assert EndsClean(v, k, budget, fails);
    RunReaches(v, k, budget, fails);
    if FailsPutBack(k, ended, result, fails) {
      forall c | Deletion(PHASES[k - 1], result, c)
        ensures !fails(c)
      {
        var first := SwapPhases(k - 1, k, ended, result, c);
      }
    }
  }

  /** Putting anything back keeps an input failing. */
  ghost predicate ClosedUnderPuttingBack(fails: Input -> bool) {
    forall phase, v, c | Deletion(phase, v, c) && fails(c) :: fails(v)
  }

  lemma {:induction false} StepsPutBack(phase: Phase, v: Input, c: Input, steps: nat, fails: Input -> bool)
    requires ClosedUnderPuttingBack(fails) && Deletes(phase, v, c, steps) && fails(c)
    ensures fails(v)
    decreases steps
  {
    if steps > 0 {
      var next :| Deletion(phase, v, next) && Deletes(phase, next, c, steps - 1);
      StepsPutBack(phase, next, c, steps - 1, fails);
    }
  }

  lemma {:induction false} PhasesPutBack(k: nat, v: Input, c: Input, fails: Input -> bool)
    requires k <= |PHASES| && ClosedUnderPuttingBack(fails) && ReachesFrom(k, v, c) && fails(c)
    ensures fails(v)
    decreases |PHASES| - k
  {
    if k < |PHASES| {
      var next :| Reaches(PHASES[k], v, next) && ReachesFrom(k + 1, next, c);
      PhasesPutBack(k + 1, next, c, fails);
      var steps: nat :| Deletes(PHASES[k], v, next, steps);
      StepsPutBack(PHASES[k], v, next, steps, fails);
    }
  }

  /** For a failure that putting back never cures, every unbounded result is minimal in all five kinds. */
  lemma MinimalInEveryKind(v: Input, phase: Phase, budget: nat, fails: Input -> bool)
    requires ClosedUnderPuttingBack(fails) && !Shrunk(v, budget, fails).bounded
    ensures Minimal(phase, Shrunk(v, budget, fails).input, fails)
  {
    var k := PhaseNumber(phase);
    var ended, result := After(v, k, budget, fails).current, Shrunk(v, budget, fails).input;
    forall c, first |
      Deletion(phase, result, c) && Deletion(phase, ended, first) && ReachesFrom(k, first, c) && fails(c)
      ensures fails(first)
    {
      PhasesPutBack(k, first, c, fails);
    }
    MinimalExactly(v, k, budget, fails);
  }

  lemma DeletionShrinks(phase: Phase, v: Input, c: Input)
    requires Deletion(phase, v, c)
    ensures Size(c) < Size(v)
  {
    CandidatesAreDeletions(phase, v, c);
    CandidatesShrink(phase, v, c);
  }

  /** Whatever a phase takes up fails. */
  lemma {:induction false} TakenFails(phase: Phase, p: Progress, budget: nat, fails: Input -> bool)
    ensures var r := Reduced(phase, p, budget, fails); r.current == p.current || fails(r.current)
    decreases Size(p.current)
  {
    if p.attempts < budget {
      ReducedUnfolds(phase, p, budget, fails);
      if Tried(phase, p, budget, fails).0 {
        TriedTakes(phase, p, budget, fails);
        TakenFails(phase, Tried(phase, p, budget, fails).1, budget, fails);
      } else {
        TriedStops(phase, p, budget, fails);
      }
    }
  }

  lemma {:induction false} RunTaken(v: Input, k: nat, n: nat, budget: nat, fails: Input -> bool)
    requires k <= n <= |PHASES|
    ensures var a, b := After(v, k, budget, fails).current, After(v, n, budget, fails).current; b == a || fails(b)
  {
    if k < n {
      RunTaken(v, k, n - 1, budget, fails);
      TakenFails(PHASES[n - 1], After(v, n - 1, budget, fails), budget, fails);
    }
  }

  /** The failure of one input alone. */
  function Only(one: Input): Input -> bool {
    v => v == one
  }

  /** The number of a kind's phase, from one on. */
  function PhaseNumber(phase: Phase): (k: nat)
    ensures 0 < k <= |PHASES| && PHASES[k - 1] == phase
  {
    match phase
    case Records => 1
    case Occurrences => 2
    case Manifest => 3
    case Archives => 4
    case Pos => 5
  }

  /** The converse fails: putting anything back to a single failing input cures it, ... */
  lemma OnlyIsNotClosed(one: Input, more: Input, phase: Phase)
    requires Deletion(phase, more, one)
    ensures !ClosedUnderPuttingBack(Only(one))
  {
    DeletionShrinks(phase, more, one);
    assert Only(one)(one) && !Only(one)(more);
  }

  /** ... and yet every unbounded result under it is minimal in all five kinds. */
  lemma OnlyIsMinimal(v: Input, phase: Phase, budget: nat, one: Input)
    requires !Shrunk(v, budget, Only(one)).bounded
    ensures Minimal(phase, Shrunk(v, budget, Only(one)).input, Only(one))
  {
    var k := PhaseNumber(phase);
    var result := Shrunk(v, budget, Only(one)).input;
    ShrinkerIsSound(v, budget, Only(one));
    assert EndsClean(v, k, budget, Only(one));
    RunTaken(v, k, |PHASES|, budget, Only(one));
    if result == one {
      forall c | Deletion(phase, result, c)
        ensures !Only(one)(c)
      {
        DeletionShrinks(phase, result, c);
      }
    }
  }

  // ---------------------------------------------------------------------------------------------
  // The loops

  lemma FirstFailingIs(cs: seq<Input>, fails: Input -> bool, i: nat)
    requires i <= |cs| && (forall j | 0 <= j < i :: !fails(cs[j])) && (i < |cs| ==> fails(cs[i]))
    ensures FirstFailing(cs, fails) == i
  {
  }

  /** The inner loop: candidates in turn until one fails or the budget is gone. */
  method TryEach(cs: seq<Input>, start: nat, budget: nat, fails: Input -> bool)
    returns (found: nat, attempts: nat, calls: nat)
    requires start <= budget
    ensures var k := FirstFailing(cs, fails);
      if k < |cs| && start + k + 1 <= budget then found == k && attempts == start + k + 1
      else found == |cs| && attempts == Min(start + |cs|, budget + 1)
    ensures calls == Min(attempts, budget) - start
  {
    attempts, calls := start, 0;
    for i := 0 to |cs|
      invariant attempts == start + i && attempts <= budget && calls == i
      invariant forall j | 0 <= j < i :: !fails(cs[j])
    {
      attempts := attempts + 1;
      if attempts > budget {
        ghost var k := FirstFailing(cs, fails);
        assert k == |cs| || fails(cs[k]);
        return |cs|, attempts, calls;
      }
      calls := calls + 1;
      if fails(cs[i]) {
        FirstFailingIs(cs, fails, i);
        return i, attempts, calls;
      }
    }
    FirstFailingIs(cs, fails, |cs|);
    found := |cs|;
  }

  /** One round: the candidates of the input as it is now. */
  method Round(phase: Phase, p: Progress, budget: nat, fails: Input -> bool)
    returns (next: Progress, changed: bool, calls: nat)
    requires p.attempts < budget
    ensures if changed then Reduced(phase, next, budget, fails) == Reduced(phase, p, budget, fails)
      else next == Reduced(phase, p, budget, fails)
    ensures p.attempts <= next.attempts <= budget + 1 && Size(next.current) <= Size(p.current)
    ensures changed ==> Size(next.current) < Size(p.current)
    ensures calls == Min(next.attempts, budget) - p.attempts
  {
    var cs := Candidates(phase, p.current);
    var found, attempts;
    found, attempts, calls := TryEach(cs, p.attempts, budget, fails);
    changed := found < |cs|;
    next := Progress(if changed then cs[found] else p.current, attempts);
    assert Tried(phase, p, budget, fails) == (changed, next);
    ReducedUnfolds(phase, p, budget, fails);
    if changed {
      TriedTakes(phase, p, budget, fails);
    }
  }

  /** One phase's two loops; `calls` counts the times the predicate was asked. */
  method Reduce(phase: Phase, p: Progress, budget: nat, fails: Input -> bool) returns (r: Progress, calls: nat)
    requires p.attempts <= budget + 1
    ensures r == Reduced(phase, p, budget, fails)
    ensures r.attempts <= budget + 1 && calls == Min(r.attempts, budget) - Min(p.attempts, budget)
  {
    r, calls := p, 0;
    ghost var goal := Reduced(phase, p, budget, fails);
    var changed := true;
    while changed && r.attempts < budget
      invariant p.attempts <= r.attempts <= budget + 1
      invariant calls == Min(r.attempts, budget) - Min(p.attempts, budget)
      invariant if changed then Reduced(phase, r, budget, fails) == goal else r == goal
      decreases changed, Size(r.current)
    {
      var asked;
      r, changed, asked := Round(phase, r, budget, fails);
      calls := calls + asked;
    }
  }

  /** The shrinker: the five phases, one after the other. */
  method Shrink(input: Input, budget: nat, fails: Input -> bool) returns (r: Outcome, calls: nat)
    ensures r == Shrunk(input, budget, fails)
    ensures calls <= budget && calls == Min(r.attempts, budget)
  {
    var p := Progress(input, 0);
    calls := 0;
    for i := 0 to |PHASES|
      invariant p == After(input, i, budget, fails)
      invariant p.attempts <= budget + 1 && calls == Min(p.attempts, budget)
    {
      var asked;
      p, asked := Reduce(PHASES[i], p, budget, fails);
      calls := calls + asked;
    }
    r := Outcome(p.current, p.attempts, p.attempts >= budget);
  }

  // ---------------------------------------------------------------------------------------------
  // Not minimal in records

  const ONE: Text := [0x31]

  /** One record and one PO row; or only the record; or nothing. */
  function Sample(records: nat, rows: nat): Input {
    Input(seq(records, i => Record(ONE, [])), [], [], [seq(rows, i => ONE)], [])
  }

  predicate SampleFails(v: Input) {
    |v.pos| == 1 && !(v.records == [] && v.pos[0] != [])
  }

  /**
   * The order of the phases shows: from one record with one PO row, where only the row without the record
   * passes, the PO row goes, and then the record could go too.
   */
  lemma LastPhaseReopensFirst(v: Input)
    requires v == Sample(1, 1)
    ensures SampleFails(v)
    ensures var r := Shrunk(v, 80, SampleFails);
      !r.bounded && r.input == Sample(1, 0) && !Minimal(Records, r.input, SampleFails)
  {
    var w := Sample(1, 0);
    var p := Progress(v, 1);
    SampleRecords(v, Progress(v, 0));
    SampleQuiet(v, Occurrences, p);
    SampleQuiet(v, Manifest, p);
    SampleQuiet(v, Archives, p);
    SamplePos(v, w, p);
    assert After(v, 0, 80, SampleFails) == Progress(v, 0);
    AfterStep(v, 0, Progress(v, 0), p);
    AfterStep(v, 1, p, p);
    AfterStep(v, 2, p, p);
    AfterStep(v, 3, p, p);
    AfterStep(v, 4, p, Progress(w, 2));
    var c := DropRecord(w, 0);
    SampleReopened(w, c);
  }

  lemma SampleReopened(w: Input, c: Input)
    requires w == Sample(1, 0) && c == DropRecord(w, 0)
    ensures Deletion(Records, w, c) && SampleFails(c)
  {
    assert |c.records| == 0;
  }

  lemma AfterStep(v: Input, n: nat, p: Progress, q: Progress)
    requires n < |PHASES| && After(v, n, 80, SampleFails) == p
    requires Reduced(PHASES[n], p, 80, SampleFails) == q
    ensures After(v, n + 1, 80, SampleFails) == q
  {
  }

  lemma SampleRecords(v: Input, p: Progress)
    requires v == Sample(1, 1) && p == Progress(v, 0)
    ensures Reduced(Records, p, 80, SampleFails) == Progress(v, 1)
  {
    var cs := Candidates(Records, v);
    assert cs == [DropRecord(v, 0)];
    FirstFailingIs(cs, SampleFails, 1);
  }

  lemma SampleQuiet(v: Input, phase: Phase, p: Progress)
    requires v == Sample(1, 1) && p == Progress(v, 1) && phase != Records && phase != Pos
    ensures Reduced(phase, p, 80, SampleFails) == p
  {
    var cs := Candidates(phase, v);
    assert AllOccurrenceDrops(v, 1) == [];
    assert cs == [];
    FirstFailingIs(cs, SampleFails, 0);
  }

  lemma SamplePos(v: Input, w: Input, p: Progress)
    requires v == Sample(1, 1) && w == Sample(1, 0) && p == Progress(v, 1)
    ensures Reduced(Pos, p, 80, SampleFails) == Progress(w, 2)
  {
    assert AllRowDrops(v.pos, 1) == [] && RowDrops(v.pos, 0, 1) == [];
    assert |w.pos[0]| == 0 && w.pos == [[]] && Without(v.pos[0], 0) == [];
    assert DropRow(v.pos, 0, 0) == w.pos;
    assert AllRowDrops(v.pos, 0) == [w.pos];
    var cs := Candidates(Pos, v);
    assert cs == [w];
    FirstFailingIs(cs, SampleFails, 0);
    assert AllRowDrops(w.pos, 1) == [] && RowDrops(w.pos, 0, 0) == [];
    var more := Candidates(Pos, w);
    assert more == [];
    FirstFailingIs(more, SampleFails, 0);
  }
}
