/**
 * The shared-counter pool of the engine stage: workers take the next index, await its read and store the
 * value, in any interleaving at the awaits.
 */
module EngineStage {
  import opened Basics

  /** A worker before its first step, awaiting the read of an index, ended by a failed read, or done. */
  datatype Worker = Ready | Reading(index: nat) | Failed(index: nat) | Done {
    predicate Holds(i: nat) {
      (Reading? || Failed?) && index == i
    }

    predicate Active() {
      Ready? || Reading?
    }
  }

  /** `claims[i]` is the worker that took index i. */
  datatype State<B> = State(next: nat, values: seq<Option<B>>, workers: seq<Worker>, claims: seq<nat>)

  /** What to read, how (None when the read fails), and how many workers at most. */
  datatype Job<!A, B> = Job(items: seq<A>, read: A -> Option<B>, concurrency: nat)

  function Width<A, B>(job: Job<A, B>): nat {
    Min(job.concurrency, |job.items|)
  }

  function Init<A, B>(job: Job<A, B>): State<B> {
    State(0, seq(|job.items|, i => None), seq(Width(job), i => Ready), [])
  }

  /** Taking the next index: the loop head, which runs without an await. */
  function Claim<A, B>(job: Job<A, B>, s: State<B>, w: nat): State<B>
    requires w < |s.workers|
  {
    if s.next < |job.items| then
      s.(next := s.next + 1, workers := s.workers[w := Reading(s.next)], claims := s.claims + [w])
    else s.(next := s.next + 1, workers := s.workers[w := Done])
  }

  /** One step of one worker: its start, or what follows its read. */
  ghost predicate Step<A, B>(job: Job<A, B>, s: State<B>, t: State<B>, w: nat) {
    && w < |s.workers|
    && match s.workers[w]
       case Ready => t == Claim(job, s, w)
       case Reading(i) =>
         && i < |s.values| == |job.items|
         && (match job.read(job.items[i])
             case Some(v) => t == Claim(job, s.(values := s.values[i := Some(v)]), w)
             case None => t == s.(workers := s.workers[w := Failed(i)]))
       case _ => false
  }

  ghost predicate Run<A, B>(job: Job<A, B>, states: seq<State<B>>, turns: seq<nat>) {
    && |states| == |turns| + 1 && states[0] == Init(job)
    && forall k | 0 <= k < |turns| :: Step(job, states[k], states[k + 1], turns[k])
  }

  // ---------------------------------------------------------------------------------------------
  // What every step keeps

  /** A worker's own index: taken by it, not stored yet. */
  ghost predicate Owns<A, B>(job: Job<A, B>, s: State<B>, w: nat)
    requires w < |s.workers|
  {
    match s.workers[w]
    case Ready => true
    case Reading(i) => i < |s.claims| && s.claims[i] == w && i < |s.values| && s.values[i].None?
    case Failed(i) =>
      && i < |s.claims| && s.claims[i] == w && i < |s.values| && s.values[i].None?
      && i < |job.items| && job.read(job.items[i]).None?
    case Done => s.next >= |job.items|
  }

  /** An index: stored with its own value, held by a worker, or not taken yet. */
  ghost predicate Placed<A, B>(job: Job<A, B>, s: State<B>, i: nat)
    requires i < |s.values| == |job.items|
  {
    && (s.values[i].Some? ==> i < |s.claims| && job.read(job.items[i]) == s.values[i])
    && (i < |s.claims| ==> s.values[i].Some? || (s.claims[i] < |s.workers| && s.workers[s.claims[i]].Holds(i)))
  }

  ghost predicate Inv<A, B>(job: Job<A, B>, s: State<B>) {
    && |s.workers| == Width(job) && |s.values| == |job.items|
    && |s.claims| == Min(s.next, |job.items|)
    && (forall w | 0 <= w < |s.workers| :: Owns(job, s, w))
    && (forall i | 0 <= i < |job.items| :: Placed(job, s, i))
  }

  lemma InitKeeps<A, B>(job: Job<A, B>)
    ensures Inv(job, Init(job))
  {
  }

  lemma ClaimKeeps<A, B>(job: Job<A, B>, s: State<B>, w: nat)
    requires |s.workers| == Width(job) && |s.values| == |job.items| && |s.claims| == Min(s.next, |job.items|)
    requires w < |s.workers|
    requires forall v | 0 <= v < |s.workers| && v != w :: Owns(job, s, v)
    requires forall i | 0 <= i < |job.items| && !s.workers[w].Holds(i) :: Placed(job, s, i)
    requires forall i | 0 <= i < |job.items| && s.workers[w].Holds(i) ::
      i < |s.claims| && s.values[i].Some? && job.read(job.items[i]) == s.values[i]
    ensures Inv(job, Claim(job, s, w))
  {
    var t := Claim(job, s, w);
    forall v | 0 <= v < |t.workers|
      ensures Owns(job, t, v)
    {
      if v != w {
        assert Owns(job, s, v);
      } else if s.next < |job.items| {
        if !s.workers[w].Holds(s.next) {
          assert Placed(job, s, s.next);
        }
      }
    }
    forall i | 0 <= i < |job.items|
      ensures Placed(job, t, i)
    {
      if !s.workers[w].Holds(i) {
        assert Placed(job, s, i);
      }
    }
  }

  lemma StepKeeps<A, B>(job: Job<A, B>, s: State<B>, t: State<B>, w: nat)
    requires Inv(job, s) && Step(job, s, t, w)
    ensures Inv(job, t)
  {
    assert Owns(job, s, w);
    match s.workers[w]
    case Ready => ClaimKeeps(job, s, w);
    case Reading(i) =>
      match job.read(job.items[i])
      case Some(v) => StoreKeeps(job, s, w, i, v);
      case None => FailKeeps(job, s, w, i);
  }

  lemma StoreKeeps<A, B>(job: Job<A, B>, s: State<B>, w: nat, i: nat, v: B)
    requires Inv(job, s) && w < |s.workers| && s.workers[w] == Reading(i)
    requires i < |job.items| && job.read(job.items[i]) == Some(v)
    ensures Inv(job, Claim(job, s.(values := s.values[i := Some(v)]), w))
  {
    var m := s.(values := s.values[i := Some(v)]);
    assert Owns(job, s, w);
    forall u | 0 <= u < |m.workers| && u != w
      ensures Owns(job, m, u)
    {
      assert Owns(job, s, u);
    }
    forall k | 0 <= k < |job.items| && k != i
      ensures Placed(job, m, k)
    {
      assert Placed(job, s, k);
    }
    ClaimKeeps(job, m, w);
  }

  lemma FailKeeps<A, B>(job: Job<A, B>, s: State<B>, w: nat, i: nat)
    requires Inv(job, s) && w < |s.workers| && s.workers[w] == Reading(i)
    requires i < |job.items| && job.read(job.items[i]).None?
    ensures Inv(job, s.(workers := s.workers[w := Failed(i)]))
  {
    var t := s.(workers := s.workers[w := Failed(i)]);
    assert Owns(job, s, w);
    forall u | 0 <= u < |t.workers|
      ensures Owns(job, t, u)
    {
      assert Owns(job, s, u);
    }
    forall k | 0 <= k < |job.items|
      ensures Placed(job, t, k)
    {
      assert Placed(job, s, k);
    }
  }

  lemma {:induction false} EveryState<A, B>(job: Job<A, B>, states: seq<State<B>>, turns: seq<nat>, k: nat)
    requires Run(job, states, turns) && k < |states|
    ensures Inv(job, states[k])
  {
    if k == 0 {
      InitKeeps(job);
    } else {
      EveryState(job, states, turns, k - 1);
      StepKeeps(job, states[k - 1], states[k], turns[k - 1]);
    }
  }

  // ---------------------------------------------------------------------------------------------
  // Main results

  ghost predicate Ended<B>(s: State<B>) {
    forall w | 0 <= w < |s.workers| :: !s.workers[w].Active()
  }

  ghost predicate AllDone<B>(s: State<B>) {
    forall w | 0 <= w < |s.workers| :: s.workers[w].Done?
  }

  /** The reads under way. */
  function InFlight(workers: seq<Worker>): nat {
    if workers == [] then 0
    else InFlight(workers[..|workers| - 1]) + if workers[|workers| - 1].Reading? then 1 else 0
  }

  lemma {:induction false} InFlightBound(workers: seq<Worker>)
    ensures InFlight(workers) <= |workers|
  {
    if workers != [] {
      InFlightBound(workers[..|workers| - 1]);
    }
  }

  /** In every reachable state no index is held twice, and no more reads are under way than allowed. */
  lemma NoIndexTwice<A, B>(job: Job<A, B>, states: seq<State<B>>, turns: seq<nat>, k: nat)
    requires Run(job, states, turns) && k < |states|
    ensures var s := states[k];
      && (forall v, w, i | 0 <= v < |s.workers| && 0 <= w < |s.workers| && s.workers[v].Holds(i)
            && s.workers[w].Holds(i) :: v == w)
      && InFlight(s.workers) <= Min(job.concurrency, |job.items|)
  {
    EveryState(job, states, turns, k);
    var s := states[k];
    InFlightBound(s.workers);
    forall v, w, i | 0 <= v < |s.workers| && 0 <= w < |s.workers| && s.workers[v].Holds(i) && s.workers[w].Holds(i)
      ensures v == w
    {
      assert Owns(job, s, v) && Owns(job, s, w);
    }
  }

  /** A claim is never taken back or made again: each index goes to one worker for good. */
  lemma ClaimsStay<A, B>(job: Job<A, B>, s: State<B>, t: State<B>, w: nat)
    requires Inv(job, s) && Step(job, s, t, w)
    ensures s.claims <= t.claims && s.next <= t.next
    ensures forall i | 0 <= i < |s.values| :: s.values[i].Some? ==> t.values[i] == s.values[i]
  {
    assert Owns(job, s, w);
  }

  function Mapped<A, B>(items: seq<A>, read: A -> Option<B>): seq<Option<B>> {
    seq(|items|, i requires 0 <= i < |items| => read(items[i]))
  }

  /**
   * When all workers are done, the values are the reads in order, unless the pool was told to run none:
   * with no worker and something to read, nothing is read and the result has only holes.
   */
  lemma DoneMeansMapped<A, B>(job: Job<A, B>, states: seq<State<B>>, turns: seq<nat>, k: nat)
    requires Run(job, states, turns) && k < |states| && AllDone(states[k])
    ensures job.concurrency > 0 || job.items == [] ==> states[k].values == Mapped(job.items, job.read)
    ensures states[k].values == Mapped(job.items, job.read) && (forall a | a in job.items :: job.read(a).Some?) ==>
      job.concurrency > 0 || job.items == []
  {
    EveryState(job, states, turns, k);
    var s := states[k];
    if |s.workers| > 0 {
      assert Owns(job, s, 0);
      forall i | 0 <= i < |job.items|
        ensures s.values[i] == job.read(job.items[i])
      {
        assert Placed(job, s, i);
      }
    } else if job.items != [] {
      NoWorkersNoSteps(job, states, turns);
      assert s.values[0].None?;
      assert job.items[0] in job.items;
    }
  }

  /** Without workers nothing ever happens. */
  lemma NoWorkersNoSteps<A, B>(job: Job<A, B>, states: seq<State<B>>, turns: seq<nat>)
    requires Run(job, states, turns) && Width(job) == 0
    ensures |states| == 1
  {
    assert |states[0].workers| == 0;
    assert turns != [] ==> Step(job, states[0], states[1], turns[0]);
  }

  /** If a worker ended in a failure, its read did fail; and stored values are right all the same. */
  lemma FailureIsReal<A, B>(job: Job<A, B>, states: seq<State<B>>, turns: seq<nat>, k: nat)
    requires Run(job, states, turns) && k < |states|
    ensures forall w | 0 <= w < |states[k].workers| && states[k].workers[w].Failed? ::
      var i := states[k].workers[w].index;
      i < |job.items| && job.read(job.items[i]).None?
    ensures |states[k].values| == |job.items|
    ensures forall i | 0 <= i < |job.items| && states[k].values[i].Some? ::
      states[k].values[i] == job.read(job.items[i])
  {
    EveryState(job, states, turns, k);
    var s := states[k];
    forall w | 0 <= w < |s.workers| && s.workers[w].Failed?
      ensures var i := s.workers[w].index; i < |job.items| && job.read(job.items[i]).None?
    {
      assert Owns(job, s, w);
    }
    forall i | 0 <= i < |job.items| && s.values[i].Some?
      ensures s.values[i] == job.read(job.items[i])
    {
      assert Placed(job, s, i);
    }
  }

  // ---------------------------------------------------------------------------------------------
  // Every run ends

  function ActiveCount(workers: seq<Worker>): nat {
    if workers == [] then 0
    else ActiveCount(workers[..|workers| - 1]) + if workers[|workers| - 1].Active() then 1 else 0
  }

  /** Steps left: one for each index not taken and one for each worker not ended. */
  function Left<A, B>(job: Job<A, B>, s: State<B>): nat {
    ActiveCount(s.workers) + if s.next < |job.items| then |job.items| - s.next else 0
  }

  lemma {:induction false} ActiveUpdate(workers: seq<Worker>, w: nat, x: Worker)
    requires w < |workers|
    ensures ActiveCount(workers[w := x]) ==
      ActiveCount(workers) - (if workers[w].Active() then 1 else 0) + if x.Active() then 1 else 0
  {
    var n := |workers| - 1;
    if w == n {
      assert workers[w := x][..n] == workers[..n];
    } else {
      ActiveUpdate(workers[..n], w, x);
      assert workers[w := x][..n] == workers[..n][w := x];
    }
  }

  /** Each step uses up exactly one. */
  lemma StepCounts<A, B>(job: Job<A, B>, s: State<B>, t: State<B>, w: nat)
    requires Step(job, s, t, w)
    ensures Left(job, t) == Left(job, s) - 1
  {
    ActiveUpdate(s.workers, w, t.workers[w]);
    assert t.workers == s.workers[w := t.workers[w]];
  }

  lemma {:induction false} ActiveReady(workers: seq<Worker>)
    requires forall w | 0 <= w < |workers| :: workers[w].Ready?
    ensures ActiveCount(workers) == |workers|
  {
    if workers != [] {
      ActiveReady(workers[..|workers| - 1]);
    }
  }

  /** After k steps of any run exactly k are used: no run goes on for ever. */
  lemma {:induction false} EveryRunEnds<A, B>(job: Job<A, B>, states: seq<State<B>>, turns: seq<nat>, k: nat)
    requires Run(job, states, turns) && k < |states|
    ensures k + Left(job, states[k]) == |job.items| + Width(job)
  {
    if k == 0 {
      ActiveReady(states[0].workers);
    } else {
      EveryRunEnds(job, states, turns, k - 1);
      StepCounts(job, states[k - 1], states[k], turns[k - 1]);
    }
  }

  /** A worker that has not ended can always take its step. */
  lemma NeverStuck<A, B>(job: Job<A, B>, s: State<B>) returns (w: nat, t: State<B>)
    requires Inv(job, s) && !Ended(s)
    ensures Step(job, s, t, w)
  {
    w :| 0 <= w < |s.workers| && s.workers[w].Active();
    assert Owns(job, s, w);
    match s.workers[w]
    case Ready => t := Claim(job, s, w);
    case Reading(i) =>
      match job.read(job.items[i])
      case Some(v) => t := Claim(job, s.(values := s.values[i := Some(v)]), w);
      case None => t := s.(workers := s.workers[w := Failed(i)]);
  }
}
