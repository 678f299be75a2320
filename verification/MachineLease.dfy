/**
 * The machine-wide lease: any number of processes run either lock routine on one path, and any of them
 * may crash between two steps. The exclusively created file is the lock.
 */
module MachineLease {
  import opened Basics

  /** The corpus lock waits for ever; the benchmark lock gives up after two hours. */
  datatype Routine = CorpusLock | BenchmarkLock

  const PATIENCE: nat := 2 * 60 * 60 * 1000

  datatype Outcome = Returned | Threw | GaveUp(waited: nat)

  /** Where a process is; from Writing to Removing it holds the lease. */
  datatype Phase =
    | Outside
    | Waiting(since: nat)
    | Writing
    | Operating
    | Closing(outcome: Outcome)
    | Removing(outcome: Outcome)
    | Finished(outcome: Outcome)
    | Crashed(holding: bool)
    | Stuck

  /** `file` is the process whose file lies at the path. A stuck process failed to close or to remove it. */
  datatype State = State(now: nat, file: Option<nat>, phases: seq<Phase>)

  predicate Holds(p: Phase) {
    p.Writing? || p.Operating? || p.Closing? || p.Removing? || p == Crashed(true) || p.Stuck?
  }

  datatype Event =
    | Tick(ms: nat)
    | Arrive
    | Open
    | OpenFailed
    | Wrote(ok: bool)
    | Ran(ok: bool)
    | Closed(ok: bool)
    | Removed(ok: bool)
    | Crash

  function With(s: State, p: nat, phase: Phase): State
    requires p < |s.phases|
  {
    s.(phases := s.phases[p := phase])
  }

  /** An exclusive create: it succeeds only where no file is, and otherwise the process waits or gives up. */
  function Opened(routines: seq<Routine>, s: State, p: nat): State
    requires p < |s.phases| == |routines| && s.phases[p].Waiting?
  {
    if s.file.None? then With(s.(file := Some(p)), p, Writing)
    else if routines[p].BenchmarkLock? && s.now - s.phases[p].since >= PATIENCE then
      With(s, p, Finished(GaveUp(s.now - s.phases[p].since)))
    else s
  }

  /** What one event does to process p; None where it cannot happen. */
  function Next(routines: seq<Routine>, s: State, p: nat, e: Event): Option<State>
    requires p < |s.phases| == |routines|
  {
    match (e, s.phases[p])
    case (Tick(ms), _) => Some(s.(now := s.now + ms))
    case (Arrive, Outside) => Some(With(s, p, Waiting(s.now)))
    case (Open, Waiting(since)) => if since <= s.now then Some(Opened(routines, s, p)) else None
    case (OpenFailed, Waiting(_)) => Some(With(s, p, Finished(Threw)))
    case (Wrote(ok), Writing) => Some(With(s, p, if ok then Operating else Closing(Threw)))
    case (Ran(ok), Operating) => Some(With(s, p, Closing(if ok then Returned else Threw)))
    case (Closed(ok), Closing(outcome)) => Some(With(s, p, if ok then Removing(outcome) else Stuck))
    case (Removed(ok), Removing(outcome)) =>
      if !ok then Some(With(s, p, Stuck))
      else if s.file.None? then None
      else Some(With(s.(file := None), p, Finished(outcome)))
    case (Crash, Finished(_)) => None
    case (Crash, Crashed(_)) => None
    case (Crash, Stuck) => None
    case (Crash, phase) => Some(With(s, p, Crashed(Holds(phase))))
    case _ => None
  }

  function Init(n: nat): State {
    State(0, None, seq(n, i => Outside))
  }

  ghost predicate Run(routines: seq<Routine>, states: seq<State>, moves: seq<(nat, Event)>) {
    && |states| == |moves| + 1 && states[0] == Init(|routines|)
    && forall k | 0 <= k < |moves| ::
        && moves[k].0 < |states[k].phases| == |routines|
        && Next(routines, states[k], moves[k].0, moves[k].1) == Some(states[k + 1])
  }

  // ---------------------------------------------------------------------------------------------
  // The invariant

  /** The file is there exactly while a process holds the lease, it is that process's, and it is alone. */
  ghost predicate Inv(routines: seq<Routine>, s: State) {
    && |s.phases| == |routines|
    && (forall p | 0 <= p < |s.phases| :: Holds(s.phases[p]) <==> s.file == Some(p))
    && (s.file.Some? ==> s.file.value < |s.phases|)
    && (forall p | 0 <= p < |s.phases| :: Truthful(routines[p], s.phases[p], s.now))
  }

  /** Only the benchmark lock gives up, and only after its two hours. */
  ghost predicate Truthful(routine: Routine, phase: Phase, now: nat) {
    match phase
    case Waiting(since) => since <= now
    case Finished(GaveUp(waited)) => routine.BenchmarkLock? && waited >= PATIENCE
    case Closing(outcome) => !outcome.GaveUp?
    case Removing(outcome) => !outcome.GaveUp?
    case _ => true
  }

  lemma TicksKeep(routine: Routine, phase: Phase, now: nat, ms: nat)
    requires Truthful(routine, phase, now)
    ensures Truthful(routine, phase, now + ms)
  {
  }

  lemma StepKeeps(routines: seq<Routine>, s: State, t: State, p: nat, e: Event)
    requires Inv(routines, s) && p < |s.phases| && Next(routines, s, p, e) == Some(t)
    ensures Inv(routines, t)
  {
    assert Truthful(routines[p], s.phases[p], s.now);
    assert Holds(s.phases[p]) <==> s.file == Some(p);
    if e.Tick? {
      forall q | 0 <= q < |t.phases|
        ensures Truthful(routines[q], t.phases[q], t.now)
      {
        TicksKeep(routines[q], s.phases[q], s.now, e.ms);
      }
    } else {
      forall q | 0 <= q < |t.phases|
        ensures Holds(t.phases[q]) <==> t.file == Some(q)
        ensures Truthful(routines[q], t.phases[q], t.now)
      {
        if q != p {
          assert t.phases[q] == s.phases[q];
        }
      }
    }
  }

  lemma {:induction false} EveryState(routines: seq<Routine>, states: seq<State>, moves: seq<(nat, Event)>, k: nat)
    requires Run(routines, states, moves) && k < |states|
    ensures Inv(routines, states[k])
  {
    if k > 0 {
      EveryState(routines, states, moves, k - 1);
      StepKeeps(routines, states[k - 1], states[k], moves[k - 1].0, moves[k - 1].1);
    }
  }

  // ---------------------------------------------------------------------------------------------
  // Main results

  /** In every reachable state at most one process holds the lease, dead or alive. */
  lemma MutualExclusion(routines: seq<Routine>, states: seq<State>, moves: seq<(nat, Event)>, k: nat, p: nat, q: nat)
    requires Run(routines, states, moves) && k < |states| && p < |states[k].phases| && q < |states[k].phases|
    requires Holds(states[k].phases[p]) && Holds(states[k].phases[q])
    ensures p == q
  {
    EveryState(routines, states, moves, k);
  }

  /** The file lies at the path exactly while some process holds the lease. */
  lemma FileMeansHolder(routines: seq<Routine>, states: seq<State>, moves: seq<(nat, Event)>, k: nat)
    requires Run(routines, states, moves) && k < |states|
    ensures states[k].file.Some? <==> exists p :: 0 <= p < |states[k].phases| && Holds(states[k].phases[p])
  {
    EveryState(routines, states, moves, k);
    if states[k].file.Some? {
      assert Holds(states[k].phases[states[k].file.value]);
    }
  }

  /** Whoever removes the file removes its own; and after a removal, by return or by throw, it is gone. */
  lemma OnlyTheHolderRemoves(routines: seq<Routine>, states: seq<State>, moves: seq<(nat, Event)>, k: nat)
    requires Run(routines, states, moves) && k < |moves|
    requires states[k].file.Some? && states[k + 1].file != states[k].file
    ensures var (p, e) := moves[k];
      && states[k].file == Some(p) && states[k + 1].file == None
      && e == Removed(true) && states[k].phases[p].Removing?
      && states[k + 1].phases[p] == Finished(states[k].phases[p].outcome)
  {
    EveryState(routines, states, moves, k);
    var (p, e) := moves[k];
    assert Next(routines, states[k], p, e) == Some(states[k + 1]);
    assert Holds(states[k].phases[p]) <==> states[k].file == Some(p);
  }

  /** A process that is about to remove always finds its file: removal fails for no reason of the lease's own. */
  lemma RemovalFindsFile(routines: seq<Routine>, states: seq<State>, moves: seq<(nat, Event)>, k: nat, p: nat)
    requires Run(routines, states, moves) && k < |states| && p < |states[k].phases| && states[k].phases[p].Removing?
    ensures states[k].file == Some(p) && |routines| == |states[k].phases|
    ensures Next(routines, states[k], p, Removed(true)).Some?
  {
    EveryState(routines, states, moves, k);
  }

  /** With everyone finished normally the path is free again; what keeps it taken is a crash or a failed cleanup. */
  lemma FreeAtTheEnd(routines: seq<Routine>, states: seq<State>, moves: seq<(nat, Event)>, k: nat)
    requires Run(routines, states, moves) && k < |states|
    requires forall p | 0 <= p < |states[k].phases| ::
      states[k].phases[p].Finished? || states[k].phases[p] == Crashed(false)
    ensures states[k].file == None
  {
    EveryState(routines, states, moves, k);
  }

  /** A process that is left waiting gets the lease with its next try if no one holds it. */
  lemma WaiterGetsIn(routines: seq<Routine>, states: seq<State>, moves: seq<(nat, Event)>, k: nat, p: nat)
    requires Run(routines, states, moves) && k < |states| && p < |states[k].phases| && states[k].phases[p].Waiting?
    ensures |routines| == |states[k].phases| && Next(routines, states[k], p, Open).Some?
    ensures (forall q | 0 <= q < |states[k].phases| :: !Holds(states[k].phases[q])) <==>
      Next(routines, states[k], p, Open).value.phases[p] == Writing
  {
    EveryState(routines, states, moves, k);
    assert Truthful(routines[p], states[k].phases[p], states[k].now);
    if states[k].file.Some? {
      assert Holds(states[k].phases[states[k].file.value]);
    }
  }

  /** Only the benchmark lock gives up, after two hours at least, and it never held the lease. */
  lemma GivesUpLate(routines: seq<Routine>, states: seq<State>, moves: seq<(nat, Event)>, k: nat, p: nat)
    requires Run(routines, states, moves) && k < |states| && p < |states[k].phases|
    requires states[k].phases[p].Finished? && states[k].phases[p].outcome.GaveUp?
    ensures |routines| == |states[k].phases|
    ensures routines[p].BenchmarkLock? && states[k].phases[p].outcome.waited >= PATIENCE
    ensures states[k].file != Some(p)
  {
    EveryState(routines, states, moves, k);
    assert Truthful(routines[p], states[k].phases[p], states[k].now);
  }
}
