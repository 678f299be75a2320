/**
 * The build that is skipped while its stamp is unchanged, as steps that may fail or crash anywhere: the
 * stamp is removed first and written last.
 */
module BuildSkip {
  import opened Basics
  import opened Utf16
  import opened TextEnds

  const STAMP_LENGTH: nat := 64

  /** A hexadecimal SHA-256 digest. */
  predicate Stamp(t: Text) {
    |t| == STAMP_LENGTH && forall i | 0 <= i < |t| :: Digit(t[i]) || 0x61 <= t[i] <= 0x66
  }

  lemma {:induction false} TrimPlain(t: Text)
    requires forall i | 0 <= i < |t| :: !Blank(t[i])
    ensures TrimStart(t) == t && TrimEnd(t) == t
  {
  }

  lemma StampPlain(s: Text, n: nat)
    requires Stamp(s) && n <= |s|
    ensures Trim(s[..n]) == s[..n] && Trim(s + [NEWLINE]) == s
  {
    TrimPlain(s[..n]);
    TrimPlain(s);
    var t := s + [NEWLINE];
    assert t[0] == s[0];
    assert TrimStart(t) == t;
    assert t[..|t| - 1] == s;
  }

  /** What a crash in the middle of writing a stamp can leave in the file. */
  ghost predicate PartOf(content: Text, stamp: Text) {
    content <= stamp + [NEWLINE]
  }

  /** Half-written stamps never pass for a stamp, except the one that only lacks its line end. */
  lemma PartReadsAs(content: Text, stamp: Text, other: Text)
    requires Stamp(stamp) && Stamp(other) && PartOf(content, stamp)
    ensures Trim(content) == other ==> other == stamp
    ensures Trim(content) == stamp <==> |content| >= STAMP_LENGTH
  {
    var whole := stamp + [NEWLINE];
    if |content| <= |stamp| {
      assert content == whole[..|content|] == stamp[..|content|];
      StampPlain(stamp, |content|);
    } else {
      assert content == whole;
      StampPlain(stamp, |stamp|);
    }
    assert stamp[..|stamp|] == stamp;
  }

  // ---------------------------------------------------------------------------------------------
  // The steps

  /** How far a call has come, with the stamp it was made for. */
  datatype Phase = Idle | Stale(stamp: Text) | Cleared(stamp: Text) | Building(stamp: Text) | Built(stamp: Text)
  datatype Event = Started(stamp: Text) | Completed(stamp: Text) | Skipped(stamp: Text)

  /** `stored` is the stamp file; `log` lists what happened to builds. */
  datatype State = State(phase: Phase, stored: Option<Text>, log: seq<Event>)

  /**
   * A call with what it finds (whether a rebuild is forced, whether every output exists), the removal of the
   * stamp, the build, its end, the write; a crash with what of the stamp was written; and someone deleting
   * the stamp file.
   */
  datatype Move =
    | Call(stamp: Text, forced: bool, outputs: bool)
    | Remove
    | Start
    | Finish(ok: bool)
    | Write
    | CrashAt(written: Option<Text>)
    | Delete

  predicate Unchanged(s: State, stamp: Text, forced: bool, outputs: bool) {
    !forced && s.stored.Some? && Trim(s.stored.value) == stamp && outputs
  }

  ghost predicate Step(s: State, m: Move, t: State) {
    match (m, s.phase)
    case (Call(stamp, forced, outputs), Idle) =>
      && Stamp(stamp)
      && t == if Unchanged(s, stamp, forced, outputs) then s.(log := s.log + [Skipped(stamp)])
              else s.(phase := Stale(stamp))
    case (Remove, Stale(stamp)) => t == s.(phase := Cleared(stamp), stored := None)
    case (Start, Cleared(stamp)) => t == s.(phase := Building(stamp), log := s.log + [Started(stamp)])
    case (Finish(ok), Building(stamp)) =>
      t == if ok then s.(phase := Built(stamp), log := s.log + [Completed(stamp)]) else s.(phase := Idle)
    case (Write, Built(stamp)) => t == s.(phase := Idle, stored := Some(stamp + [NEWLINE]))
    case (CrashAt(written), Built(stamp)) =>
      (written.Some? ==> PartOf(written.value, stamp)) && t == s.(phase := Idle, stored := written)
    case (CrashAt(_), Idle) => false
    case (CrashAt(written), _) => written.None? && t == s.(phase := Idle)
    case (Delete, _) => t == s.(stored := None)
    case _ => false
  }

  ghost predicate Run(states: seq<State>, moves: seq<Move>) {
    && |states| == |moves| + 1 && states[0] == State(Idle, None, [])
    && forall k | 0 <= k < |moves| :: Step(states[k], moves[k], states[k + 1])
  }

  // ---------------------------------------------------------------------------------------------
  // What every step keeps

  /** The last build that the log tells of: its start or its completion. */
  function LastBuild(log: seq<Event>): Option<Event> {
    if log == [] then None
    else if log[|log| - 1].Skipped? then LastBuild(log[..|log| - 1])
    else Some(log[|log| - 1])
  }

  lemma LastBuildSnoc(log: seq<Event>, e: Event)
    ensures LastBuild(log + [e]) == if e.Skipped? then LastBuild(log) else Some(e)
  {
    assert (log + [e])[..|log|] == log;
  }

  /** A stamp on file, whole or in part, is that of the last build, which completed. */
  ghost predicate Inv(s: State) {
    && (s.phase != Idle ==> Stamp(s.phase.stamp))
    && (s.phase.Cleared? || s.phase.Building? || s.phase.Built? ==> s.stored.None?)
    && (s.phase.Built? ==> LastBuild(s.log) == Some(Completed(s.phase.stamp)))
    && (s.stored.Some? ==>
          && LastBuild(s.log).Some? && LastBuild(s.log).value.Completed?
          && Stamp(LastBuild(s.log).value.stamp) && PartOf(s.stored.value, LastBuild(s.log).value.stamp))
  }

  lemma StepKeeps(s: State, m: Move, t: State)
    requires Inv(s) && Step(s, m, t)
    ensures Inv(t)
  {
    if t.log != s.log {
      var e := t.log[|t.log| - 1];
      assert t.log == s.log + [e];
      LastBuildSnoc(s.log, e);
    }
  }

  lemma {:induction false} EveryState(states: seq<State>, moves: seq<Move>, k: nat)
    requires Run(states, moves) && k < |states|
    ensures Inv(states[k])
  {
    if k > 0 {
      EveryState(states, moves, k - 1);
      StepKeeps(states[k - 1], moves[k - 1], states[k]);
    }
  }

  /** Somewhere in the log a build for the stamp completed, and none has started since. */
  ghost predicate Current(log: seq<Event>, stamp: Text) {
    exists k :: 0 <= k < |log| && log[k] == Completed(stamp) && forall j | k < j < |log| :: log[j].Skipped?
  }

  lemma {:induction false} LastIsCurrent(log: seq<Event>, stamp: Text)
    ensures LastBuild(log) == Some(Completed(stamp)) <==> Current(log, stamp)
  {
    if log != [] {
      var n := |log| - 1;
      var init := log[..n];
      LastIsCurrent(init, stamp);
      if log[n].Skipped? {
        if Current(init, stamp) {
          var k :| 0 <= k < |init| && init[k] == Completed(stamp) && forall j | k < j < |init| :: init[j].Skipped?;
          assert log[k] == Completed(stamp) && forall j | k < j < |log| :: j == n || log[j] == init[j];
        }
        if Current(log, stamp) {
          var k :| 0 <= k < |log| && log[k] == Completed(stamp) && forall j | k < j < |log| :: log[j].Skipped?;
          assert init[k] == Completed(stamp) && forall j | k < j < |init| :: init[j] == log[j];
        }
      } else if Current(log, stamp) {
        var k :| 0 <= k < |log| && log[k] == Completed(stamp) && forall j | k < j < |log| :: log[j].Skipped?;
        assert k == n;
      } else {
        assert log[n] != Completed(stamp);
      }
    }
  }

  // ---------------------------------------------------------------------------------------------
  // Main results

  /**
   * In every run, failures and crashes anywhere: a call that skips has a completed build of its own stamp
   * behind it, with no build started since.
   */
  lemma SkipIsSafe(states: seq<State>, moves: seq<Move>, k: nat)
    requires Run(states, moves) && k < |moves| && moves[k].Call?
    requires states[k + 1].log == states[k].log + [Skipped(moves[k].stamp)]
    ensures Current(states[k].log, moves[k].stamp) && moves[k].outputs && !moves[k].forced
  {
    EveryState(states, moves, k);
    var s := states[k];
    assert Step(s, moves[k], states[k + 1]);
    LogGrew(s.log, Skipped(moves[k].stamp));
    PartReadsAs(s.stored.value, LastBuild(s.log).value.stamp, moves[k].stamp);
    LastIsCurrent(s.log, moves[k].stamp);
  }

  lemma LogGrew(log: seq<Event>, e: Event)
    ensures log + [e] != log
  {
    assert |log + [e]| == |log| + 1;
  }

  /** A build that fails or is interrupted is never skipped by the next call, whatever the stamp. */
  lemma InterruptedBuildsRerun(states: seq<State>, moves: seq<Move>, k: nat)
    requires Run(states, moves) && k < |moves| && moves[k].Call? && states[k].phase == Idle
    requires LastBuild(states[k].log).None? || LastBuild(states[k].log).value.Started?
    ensures states[k + 1].phase == Stale(moves[k].stamp) && states[k + 1].log == states[k].log
  {
    EveryState(states, moves, k);
    assert Step(states[k], moves[k], states[k + 1]);
  }

  /** And nothing is built twice for nothing: after a write the same call skips. */
  lemma WrittenStampSkips(states: seq<State>, moves: seq<Move>, k: nat, stamp: Text)
    requires Run(states, moves) && k + 1 < |moves| && moves[k].Write?
    requires states[k].phase == Built(stamp) && moves[k + 1] == Call(stamp, false, true)
    ensures states[k + 2].log == states[k + 1].log + [Skipped(stamp)] && states[k + 2].phase == Idle
  {
    EveryState(states, moves, k);
    assert Step(states[k], moves[k], states[k + 1]);
    assert Step(states[k + 1], moves[k + 1], states[k + 2]);
    StampPlain(stamp, 0);
  }
}
