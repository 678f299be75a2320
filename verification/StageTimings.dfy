/** Wall time covered by spans: one pass over the spans sorted by start measures their union. */
module StageTimings {
  type Span = (int, int)

  /** The instants of one span, its end excluded. */
  function Range(from: int, to: int): set<int> {
    set t: int | from <= t < to && Within(t, from, to)
  }

  predicate Within(t: int, from: int, to: int) {
    from <= t < to
  }

  /** The instants at least one span covers. */
  function Union(spans: seq<Span>): set<int> {
    if spans == [] then {} else Union(spans[..|spans| - 1]) + Range(spans[|spans| - 1].0, spans[|spans| - 1].1)
  }

  function Sum(spans: seq<Span>): int {
    if spans == [] then 0 else Sum(spans[..|spans| - 1]) + spans[|spans| - 1].1 - spans[|spans| - 1].0
  }

  /** Every span ends no earlier than it starts. */
  ghost predicate Forward(spans: seq<Span>) {
    forall s | s in spans :: s.0 <= s.1
  }

  lemma {:induction false} RangeSize(from: int, to: int)
    requires from <= to
    ensures |Range(from, to)| == to - from
    decreases if from < to then to - from else 0
  {
    if from < to {
      RangeSize(from, to - 1);
      assert Range(from, to) == Range(from, to - 1) + {to - 1};
    } else {
      assert Range(from, to) == {};
    }
  }

  lemma UnionSnoc(spans: seq<Span>, i: nat)
    requires i < |spans|
    ensures Union(spans[..i + 1]) == Union(spans[..i]) + Range(spans[i].0, spans[i].1)
  {
    assert spans[..i + 1][..i] == spans[..i];
  }

  lemma {:induction false} InUnion(spans: seq<Span>, t: int)
    ensures t in Union(spans) <==> exists s :: s in spans && s.0 <= t < s.1
  {
    if spans != [] {
      var n := |spans| - 1;
      InUnion(spans[..n], t);
      assert forall s | s in spans :: s in spans[..n] || s == spans[n];
      assert spans[n] in spans;
    }
  }

  // ---------------------------------------------------------------------------------------------
  // Sorting by start

  function Insert(s: Span, sorted: seq<Span>): seq<Span> {
    if sorted == [] then [s] else if sorted[0].0 <= s.0 then [sorted[0]] + Insert(s, sorted[1..]) else [s] + sorted
  }

  /** The spans by start; spans of one start stay in order. */
  function SortByStart(spans: seq<Span>): seq<Span> {
    if spans == [] then [] else Insert(spans[|spans| - 1], SortByStart(spans[..|spans| - 1]))
  }

  ghost predicate ByStart(spans: seq<Span>) {
    forall i, j | 0 <= i < j < |spans| :: spans[i].0 <= spans[j].0
  }

  ghost predicate From(spans: seq<Span>, start: int) {
    forall i | 0 <= i < |spans| :: start <= spans[i].0
  }

  lemma {:induction false} InsertSorts(s: Span, sorted: seq<Span>, start: int)
    requires ByStart(sorted) && From(sorted, start) && start <= s.0
    ensures ByStart(Insert(s, sorted)) && From(Insert(s, sorted), start)
  {
    if sorted != [] && sorted[0].0 <= s.0 {
      InsertSorts(s, sorted[1..], sorted[0].0);
    }
  }

  lemma {:induction false} InsertHolds(s: Span, sorted: seq<Span>, x: Span)
    ensures x in Insert(s, sorted) <==> x == s || x in sorted
  {
    if sorted != [] {
      InsertHolds(s, sorted[1..], x);
      assert sorted == [sorted[0]] + sorted[1..];
    }
  }

  lemma {:induction false} SortHolds(spans: seq<Span>, x: Span)
    ensures x in SortByStart(spans) <==> x in spans
  {
    if spans != [] {
      var n := |spans| - 1;
      SortHolds(spans[..n], x);
      InsertHolds(spans[n], SortByStart(spans[..n]), x);
      assert spans == spans[..n] + [spans[n]];
    }
  }

  lemma {:induction false} LeastStart(spans: seq<Span>) returns (start: int)
    ensures From(spans, start)
  {
    if spans == [] {
      start := 0;
    } else {
      start := LeastStart(spans[1..]);
      if spans[0].0 < start {
        start := spans[0].0;
      }
    }
  }

  lemma {:induction false} SortSorts(spans: seq<Span>)
    ensures ByStart(SortByStart(spans))
  {
    if spans != [] {
      var n := |spans| - 1;
      SortSorts(spans[..n]);
      var all := [spans[n]] + SortByStart(spans[..n]);
      var start := LeastStart(all);
      assert all[0] == spans[n];
      assert forall i | 0 <= i < |SortByStart(spans[..n])| :: all[i + 1] == SortByStart(spans[..n])[i];
      InsertSorts(spans[n], SortByStart(spans[..n]), start);
    }
  }

  /** The union depends only on which spans there are: not on their order, nor on how often one occurs. */
  lemma SameSpansSameUnion(a: seq<Span>, b: seq<Span>)
    requires forall s :: s in a <==> s in b
    ensures Union(a) == Union(b)
  {
    forall t
      ensures t in Union(a) <==> t in Union(b)
    {
      InUnion(a, t);
      InUnion(b, t);
    }
  }

  lemma SortKeepsUnion(spans: seq<Span>)
    ensures Union(SortByStart(spans)) == Union(spans)
    ensures Forward(SortByStart(spans)) <==> Forward(spans)
  {
    forall s
      ensures s in SortByStart(spans) <==> s in spans
    {
      SortHolds(spans, s);
    }
    SameSpansSameUnion(SortByStart(spans), spans);
  }

  // ---------------------------------------------------------------------------------------------
  // The pass

  /** All covered instants of the runs before lie before the open run. */
  ghost predicate Before(done: set<int>, start: int) {
    forall t | t in done :: t < start
  }

  lemma CloseRun(done: set<int>, start: int, end: int)
    requires Before(done, start) && start <= end
    ensures |done + Range(start, end)| == |done| + end - start
    ensures Before(done + Range(start, end), end)
  {
    RangeSize(start, end);
    assert done !! Range(start, end);
  }

  lemma JoinRun(start: int, end: int, from: int, to: int)
    requires start <= from <= end && from <= to
    ensures Range(start, end) + Range(from, to) == Range(start, if to > end then to else end)
  {
  }

  /** Wall time covered: overlapping spans count once. */
  method CoveredMs(spans: seq<Span>) returns (total: int)
    ensures Forward(spans) ==> total == |Union(spans)|
  {
    var sorted := SortByStart(spans);
    SortSorts(spans);
    SortKeepsUnion(spans);
    total := 0;
    var open, start, end := false, 0, 0;
    ghost var done: set<int> := {};
    for i := 0 to |sorted|
      invariant open <==> i > 0
      invariant open ==> forall k | i <= k < |sorted| :: start <= sorted[k].0
      invariant Forward(spans) ==> total == |done| && Before(done, start) && start <= end
      invariant Forward(spans) ==> Union(sorted[..i]) == done + Range(start, end)
      invariant !open ==> done == {} && start == end
    {
      var (from, to) := sorted[i];
      assert sorted[i] in sorted;
      UnionSnoc(sorted, i);
      if !open || from > end {
        if open {
          total := total + end - start;
        }
        if Forward(spans) {
          CloseRun(done, start, end);
        }
        done := done + Range(start, end);
        open, start, end := true, from, to;
      } else {
        if Forward(spans) {
          JoinRun(start, end, from, to);
          assert done + Range(start, end) + Range(from, to) == done + (Range(start, end) + Range(from, to));
        }
        if to > end {
          end := to;
        }
      }
    }
    if open {
      total := total + end - start;
    }
    if Forward(spans) {
      CloseRun(done, start, end);
      assert sorted[..|sorted|] == sorted;
    }
  }

  // ---------------------------------------------------------------------------------------------
  // What the measure means

  /** No span is longer than what is covered. */
  lemma AtLeastLongest(spans: seq<Span>, s: Span)
    requires s in spans && s.0 <= s.1
    ensures s.1 - s.0 <= |Union(spans)|
  {
    RangeSize(s.0, s.1);
    forall t | t in Range(s.0, s.1)
      ensures t in Union(spans)
    {
      InUnion(spans, t);
    }
    SubsetSize(Range(s.0, s.1), Union(spans));
  }

  lemma SubsetSize(a: set<int>, b: set<int>)
    requires a <= b
    ensures |a| <= |b|
  {
    assert b == a + (b - a);
  }

  lemma UnionSize(a: set<int>, b: set<int>)
    ensures |a + b| <= |a| + |b|
    ensures |a + b| == |a| + |b| <==> a !! b
  {
    assert |a + b| == |a| + |b| - |a * b|;
    if |a * b| == 0 {
      assert a * b == {};
      forall t | t in a
        ensures t !in b
      {
        assert t in b ==> t in a * b;
      }
    }
    if a !! b {
      assert a * b == {};
    }
  }

  ghost predicate Disjoint(a: Span, b: Span) {
    Range(a.0, a.1) !! Range(b.0, b.1)
  }

  ghost predicate AllDisjoint(spans: seq<Span>) {
    forall i, j | 0 <= i < j < |spans| :: Disjoint(spans[i], spans[j])
  }

  lemma {:induction false} ApartFromAll(spans: seq<Span>, s: Span)
    ensures Union(spans) !! Range(s.0, s.1) <==> forall i | 0 <= i < |spans| :: Disjoint(spans[i], s)
  {
    if spans != [] {
      ApartFromAll(spans[..|spans| - 1], s);
    }
  }

  lemma DisjointSnoc(before: seq<Span>, s: Span)
    ensures AllDisjoint(before + [s]) <==> AllDisjoint(before) && forall i | 0 <= i < |before| :: Disjoint(before[i], s)
  {
    var all := before + [s];
    assert forall i | 0 <= i < |before| :: all[i] == before[i];
    assert all[|before|] == s;
  }

  /** What is covered is at most what the spans take one by one, and just that when no two overlap. */
  lemma {:induction false} AtMostSum(spans: seq<Span>)
    requires Forward(spans)
    ensures |Union(spans)| <= Sum(spans)
    ensures |Union(spans)| == Sum(spans) <==> AllDisjoint(spans)
  {
    if spans != [] {
      var before, last := spans[..|spans| - 1], spans[|spans| - 1];
      assert last in spans && forall s | s in before :: s in spans;
      AtMostSum(before);
      RangeSize(last.0, last.1);
      UnionSize(Union(before), Range(last.0, last.1));
      ApartFromAll(before, last);
      DisjointSnoc(before, last);
      assert spans == before + [last];
    }
  }
}
