/**
 * The second pass of the constructor's substitution, stage by stage, and the main results: the two
 * passes are one simultaneous replacement exactly when the text holds no trap.
 */
module SubstitutionStages {
  import opened Basics
  import opened Utf16
  import opened BlueprintText
  import opened Substitution

  // ---------------------------------------------------------------------------------------------
  // Second pass: the text as fields between NULs

  function Join(fs: seq<Text>): Text
    requires fs != []
  {
    if |fs| == 1 then fs[0] else fs[0] + ([NUL] + Join(fs[1..]))
  }

  function Fields(m: Marked): (fs: seq<Text>)
    ensures fs != [] && fs[0] == m.lit
  {
    match m
    case End(l) => [l]
    case Cut(l, k, r) => [l, NatText(k)] + Fields(r)
  }

  /** What replacing NUL d NUL does to the fields: it swallows a field d that is neither first nor last. */
  function Collapse(fs: seq<Text>, d: Text, v: Text): (r: seq<Text>)
    requires fs != []
    ensures r != []
  {
    if |fs| == 1 then fs
    else if |fs| >= 3 && fs[1] == d then Glue(fs[0] + v, Collapse(fs[2..], d, v))
    else [fs[0]] + Collapse(fs[1..], d, v)
  }

  function Glue(x: Text, fs: seq<Text>): (r: seq<Text>)
    requires fs != []
    ensures r != []
  {
    [x + fs[0]] + fs[1..]
  }

  lemma JoinGlue(x: Text, fs: seq<Text>)
    requires fs != []
    ensures Join(Glue(x, fs)) == x + Join(fs)
  {
    if |fs| > 1 {
      Assoc(x, fs[0], [NUL] + Join(fs[1..]));
      assert Glue(x, fs)[1..] == fs[1..];
    }
  }

  lemma JoinCons(x: Text, fs: seq<Text>)
    requires fs != []
    ensures Join([x] + fs) == x + ([NUL] + Join(fs))
  {
    assert ([x] + fs)[1..] == fs;
  }

  lemma FieldsCut(m: Marked)
    requires m.Cut?
    ensures Fields(m) == [m.lit] + ([NatText(m.slot)] + Fields(m.rest))
    ensures Fields(m)[1..] == [NatText(m.slot)] + Fields(m.rest)
    ensures Fields(m)[2..] == Fields(m.rest) && Fields(m)[1] == NatText(m.slot)
  {
  }

  lemma {:induction false} JoinFields(m: Marked)
    ensures Join(Fields(m)) == Show(m)
  {
    if m.Cut? {
      JoinFields(m.rest);
      FieldsCut(m);
      JoinCons(NatText(m.slot), Fields(m.rest));
      JoinCons(m.lit, [NatText(m.slot)] + Fields(m.rest));
      MarkerSplits(m.slot, Show(m.rest));
    }
  }

  ghost predicate AllNulFree(fs: seq<Text>) {
    forall f | f in fs :: NulFree(f)
  }

  /** Within a field the scan for NUL d NUL finds nothing. */
  lemma {:induction false} ScanField(f: Text, b: Text, w: Text, v: Text)
    requires NulFree(f) && w != [] && w[0] == NUL
    ensures ReplaceAll(f + b, w, v) == f + ReplaceAll(b, w, v)
    decreases |f|
  {
    if f == [] {
      assert f + b == b && f + ReplaceAll(b, w, v) == ReplaceAll(b, w, v);
    } else {
      var t := f + b;
      assert t[0] == f[0] && f[0] in f && t[1..] == f[1..] + b;
      ReplaceStep(t, w, v);
      ScanField(f[1..], b, w, v);
      Assoc([f[0]], f[1..], ReplaceAll(b, w, v));
      assert [f[0]] + f[1..] == f;
    }
  }

  lemma ScanEmpty(w: Text, v: Text)
    requires w != []
    ensures ReplaceAll([], w, v) == []
  {
  }

  /** NUL d NUL starts at a NUL exactly when the next field is d and a further NUL ends it. */
  lemma MatchesField(g: Text, b: Text, d: Text)
    requires NulFree(g) && NulFree(d)
    ensures [NUL] + d + [NUL] <= [NUL] + (g + ([NUL] + b)) <==> g == d
  {
    var w := [NUL] + d + [NUL];
    var t := [NUL] + (g + ([NUL] + b));
    assert t[|g| + 1] == NUL && w[|d| + 1] == NUL;
    assert forall i | 0 <= i < |g| :: t[i + 1] == g[i] && g[i] in g;
    assert forall i | 0 <= i < |d| :: w[i + 1] == d[i] && d[i] in d;
    if w <= t {
      assert forall i | 0 <= i < |w| :: w[i] == t[i];
      assert |g| >= |d|;
      assert |g| <= |d|;
      assert forall i | 0 <= i < |g| :: g[i] == t[i + 1] == w[i + 1] == d[i];
    }
    if g == d {
      assert t == w + b;
    }
  }

  lemma MatchesNoLast(g: Text, d: Text)
    requires NulFree(g)
    ensures !([NUL] + d + [NUL] <= [NUL] + g)
  {
    var w := [NUL] + d + [NUL];
    var t := [NUL] + g;
    assert w[|d| + 1] == NUL;
    if |w| <= |t| {
      assert t[|d| + 1] == g[|d|] && g[|d|] in g;
    }
  }

  lemma {:induction false} CollapseJoins(fs: seq<Text>, d: Text, v: Text)
    requires fs != [] && AllNulFree(fs) && NulFree(d)
    ensures ReplaceAll(Join(fs), [NUL] + d + [NUL], v) == Join(Collapse(fs, d, v))
    decreases |fs|
  {
    var w := [NUL] + d + [NUL];
    var f := fs[0];
    assert NulFree(f);
    if |fs| == 1 {
      ScanEmpty(w, v);
      ScanField(f, [], w, v);
      assert f + [] == f;
    } else {
      var tail := [NUL] + Join(fs[1..]);
      ScanField(f, tail, w, v);
      CollapseJoins(fs[1..], d, v);
      if |fs| >= 3 && fs[1] == d {
        CollapseJoins(fs[2..], d, v);
        CollapseAtMatch(fs, d, v);
      } else {
        NoMatchAt(fs, d);
        assert tail[1..] == Join(fs[1..]);
        ReplaceStep(tail, w, v);
        JoinCons(f, Collapse(fs[1..], d, v));
      }
    }
  }

  lemma CollapseAtMatch(fs: seq<Text>, d: Text, v: Text)
    requires |fs| >= 3 && AllNulFree(fs) && NulFree(d) && fs[1] == d
    requires var w := [NUL] + d + [NUL];
      ReplaceAll(Join(fs[2..]), w, v) == Join(Collapse(fs[2..], d, v))
    ensures fs[0] + ReplaceAll([NUL] + Join(fs[1..]), [NUL] + d + [NUL], v) == Join(Collapse(fs, d, v))
  {
    var w := [NUL] + d + [NUL];
    var b := Join(fs[2..]);
    assert fs[1..][1..] == fs[2..];
    var tail := [NUL] + Join(fs[1..]);
    assert tail == w + b;
    assert w <= tail && tail[|w|..] == b;
    JoinGlue(fs[0] + v, Collapse(fs[2..], d, v));
    Assoc(fs[0], v, ReplaceAll(b, w, v));
  }

  lemma NoMatchAt(fs: seq<Text>, d: Text)
    requires |fs| >= 2 && AllNulFree(fs) && NulFree(d) && (|fs| == 2 || fs[1] != d)
    ensures !([NUL] + d + [NUL] <= [NUL] + Join(fs[1..]))
  {
    assert NulFree(fs[1]);
    if |fs| == 2 {
      MatchesNoLast(fs[1], d);
    } else {
      MatchesField(fs[1], Join(fs[1..][1..]), d);
    }
  }

  lemma {:induction false} FieldsNulFree(m: Marked)
    requires Plain(m)
    ensures AllNulFree(Fields(m))
  {
    if m.Cut? {
      FieldsNulFree(m.rest);
      NatTextNulFree(m.slot);
    }
  }

  // ---------------------------------------------------------------------------------------------
  // One stage without a trap

  /** All slots k filled with v. */
  function Merge(m: Marked, k: nat, v: Text): Marked {
    match m
    case End(l) => m
    case Cut(l, j, r) => if j == k then Ahead(l + v, Merge(r, k, v)) else Cut(l, j, Merge(r, k, v))
  }

  /**
   * The text between two slots spells k, the left slot is filled after stage k, and the right one not
   * before it: at stage k the two inner NULs look like the marker of k.
   */
  predicate TrapAt(m: Marked, k: nat) {
    m.Cut? && ((m.rest.Cut? && m.rest.lit == NatText(k) && k < m.slot && k <= m.rest.slot) || TrapAt(m.rest, k))
  }

  ghost predicate Trapped(m: Marked, lo: nat, hi: nat) {
    exists k :: lo <= k < hi && TrapAt(m, k)
  }

  lemma NatTextInjective(j: nat, k: nat)
    ensures NatText(j) == NatText(k) ==> j == k
  {
    NatTextReads(j);
    NatTextReads(k);
  }

  lemma FieldsAhead(x: Text, m: Marked)
    ensures Fields(Ahead(x, m)) == Glue(x, Fields(m))
  {
    if m.Cut? {
      assert Fields(m)[1..] == [NatText(m.slot)] + Fields(m.rest);
    }
  }

  /** Stepping over a slot that stays, with no match right behind it. */
  lemma CollapsePasses(m: Marked, d: Text, v: Text)
    requires m.Cut? && NatText(m.slot) != d && (m.rest.Cut? ==> m.rest.lit != d)
    ensures Collapse(Fields(m), d, v) == [m.lit] + ([NatText(m.slot)] + Collapse(Fields(m.rest), d, v))
  {
    FieldsCut(m);
    var tail := [NatText(m.slot)] + Fields(m.rest);
    assert tail[1..] == Fields(m.rest) && tail[1] == m.rest.lit;
    assert |tail| >= 3 ==> m.rest.Cut?;
    assert Collapse(tail, d, v) == [NatText(m.slot)] + Collapse(Fields(m.rest), d, v);
  }

  lemma {:induction false} MergeCollapses(m: Marked, k: nat, v: Text, n: nat)
    requires SlotsIn(m, k, n) && !TrapAt(m, k)
    ensures Collapse(Fields(m), NatText(k), v) == Fields(Merge(m, k, v))
  {
    if m.Cut? {
      MergeCollapses(m.rest, k, v, n);
      NatTextInjective(m.slot, k);
      if m.slot == k {
        FieldsCut(m);
        FieldsAhead(m.lit + v, Merge(m.rest, k, v));
      } else {
        CollapsePasses(m, NatText(k), v);
        FieldsCut(Merge(m, k, v));
      }
    }
  }

  lemma {:induction false} MergeSlots(m: Marked, k: nat, v: Text, n: nat)
    requires SlotsIn(m, k, n)
    ensures SlotsIn(Merge(m, k, v), k + 1, n)
  {
    if m.Cut? {
      MergeSlots(m.rest, k, v, n);
    }
  }

  lemma {:induction false} MergeFills(m: Marked, k: nat, table: seq<Text>)
    requires k < |table| && SlotsIn(m, k, |table|)
    ensures SlotsIn(Merge(m, k, table[k]), 0, |table|) && SlotsIn(m, 0, |table|)
    ensures Fill(Merge(m, k, table[k]), table) == Fill(m, table)
  {
    if m.Cut? {
      MergeFills(m.rest, k, table);
      if m.slot == k {
        var r := Merge(m.rest, k, table[k]);
        FillAhead(m.lit + table[k], r, table);
        Assoc(m.lit, table[k], Fill(r, table));
      }
    }
  }

  lemma ValueApart(a: Text, v: Text, b: Text, k: nat, n: nat)
    requires Clear(v, n) && k < n
    ensures a + v + b != NatText(k)
  {
    OccursAmid(a, v, b);
  }

  lemma AheadTraps(x: Text, m: Marked, j: nat)
    ensures TrapAt(Ahead(x, m), j) <==> TrapAt(m, j)
  {
  }

  /** Filling slot k makes and unmakes no later trap. */
  lemma {:induction false} MergeTraps(m: Marked, k: nat, v: Text, j: nat, n: nat)
    requires k < j < n && Clear(v, n)
    ensures TrapAt(Merge(m, k, v), j) <==> TrapAt(m, j)
  {
    if m.Cut? {
      MergeTraps(m.rest, k, v, j, n);
      var r := Merge(m.rest, k, v);
      if m.slot == k {
        AheadTraps(m.lit + v, r, j);
      } else if m.rest.Cut? {
        MergeTraps(m.rest.rest, k, v, j, n);
        if m.rest.slot == k {
          var inner := Merge(m.rest.rest, k, v);
          ValueApart(m.rest.lit, v, inner.lit, j, n);
          assert r.lit == m.rest.lit + v + inner.lit;
        }
      }
    }
  }

  // ---------------------------------------------------------------------------------------------
  // One stage with a trap: too many NULs stay

  ghost predicate IsNumber(t: Text, n: nat) {
    exists k :: 0 <= k < n && t == NatText(k)
  }

  /** The most fields that stages can still swallow. */
  ghost function Most(fs: seq<Text>, n: nat): nat {
    if |fs| < 3 then 0
    else if IsNumber(fs[1], n) then Max(Most(fs[1..], n), 1 + Most(fs[2..], n))
    else Most(fs[1..], n)
  }

  /** Fields that must survive: each swallowed field takes a neighbour with it. */
  ghost function Excess(fs: seq<Text>, n: nat): int {
    |fs| - 2 * Most(fs, n)
  }

  lemma {:induction false} MostBound(fs: seq<Text>, n: nat)
    requires fs != []
    ensures 2 * Most(fs, n) <= |fs| - 1
  {
    if |fs| >= 3 {
      MostBound(fs[1..], n);
      MostBound(fs[2..], n);
    }
  }

  lemma MostHead(x: Text, y: Text, fs: seq<Text>, n: nat)
    ensures Most([x] + fs, n) == Most([y] + fs, n)
  {
    assert ([x] + fs)[1..] == fs == ([y] + fs)[1..];
    if |fs| >= 2 {
      assert ([x] + fs)[2..] == fs[1..] == ([y] + fs)[2..];
    }
  }

  lemma MostGlue(x: Text, fs: seq<Text>, n: nat)
    requires fs != []
    ensures Most(Glue(x, fs), n) == Most(fs, n) && |Glue(x, fs)| == |fs|
  {
    MostHead(x + fs[0], fs[0], fs[1..], n);
    assert fs == [fs[0]] + fs[1..];
  }

  /** A field in front adds at most one. */
  lemma MostCons(x: Text, fs: seq<Text>, n: nat)
    requires fs != []
    ensures Most(fs, n) <= Most([x] + fs, n) <= 1 + Most(fs, n)
    ensures |fs| >= 2 && IsNumber(fs[0], n) ==> 1 + Most(fs[1..], n) <= Most([x] + fs, n)
    ensures |fs| >= 2 ==> Most([x] + fs, n) <= Max(Most(fs, n), 1 + Most(fs[1..], n))
    ensures !IsNumber(fs[0], n) ==> Most([x] + fs, n) == Most(fs, n)
  {
    var t := [x] + fs;
    assert t[1..] == fs;
    if |fs| >= 2 {
      assert t[2..] == fs[1..];
      MostTail(fs, n);
    }
  }

  lemma MostTail(fs: seq<Text>, n: nat)
    requires |fs| >= 2
    ensures Most(fs[1..], n) <= Most(fs, n)
  {
  }

  /** No stage makes up for a lost field. */
  lemma {:induction false} ExcessKept(fs: seq<Text>, k: nat, v: Text, n: nat)
    requires fs != [] && k < n && Clear(v, n)
    ensures Excess(Collapse(fs, NatText(k), v), n) >= Excess(fs, n)
    decreases |fs|
  {
    var d := NatText(k);
    if |fs| >= 2 {
      var c1 := Collapse(fs[1..], d, v);
      ExcessKept(fs[1..], k, v, n);
      assert fs == [fs[0]] + fs[1..];
      MostCons(fs[0], fs[1..], n);
      if |fs| >= 3 {
        ExcessKept(fs[2..], k, v, n);
        assert fs[1..][1..] == fs[2..];
      }
      if |fs| >= 3 && fs[1] == d {
        MostGlue(fs[0] + v, Collapse(fs[2..], d, v), n);
        assert IsNumber(fs[1], n);
      } else {
        ExcessKeptCons(fs, k, v, n);
      }
    }
  }

  lemma ExcessKeptCons(fs: seq<Text>, k: nat, v: Text, n: nat)
    requires |fs| >= 2 && k < n && Clear(v, n) && (|fs| < 3 || fs[1] != NatText(k))
    requires Excess(Collapse(fs[1..], NatText(k), v), n) >= Excess(fs[1..], n)
    requires |fs| >= 3 ==> Excess(Collapse(fs[2..], NatText(k), v), n) >= Excess(fs[2..], n)
    ensures Excess(Collapse(fs, NatText(k), v), n) >= Excess(fs, n)
  {
    var d := NatText(k);
    var tail := fs[1..];
    var c := Collapse(tail, d, v);
    assert Collapse(fs, d, v) == [fs[0]] + c;
    assert fs == [fs[0]] + tail;
    MostCons(fs[0], tail, n);
    MostCons(fs[0], c, n);
    if |tail| >= 2 {
      assert tail[1..] == fs[2..];
      if |tail| >= 3 && tail[1] == d {
        var more := Collapse(tail[2..], d, v);
        GluedApart(tail[0], v, more, n);
      } else {
        assert c == [tail[0]] + Collapse(tail[1..], d, v);
        assert c[1..] == Collapse(tail[1..], d, v);
      }
    }
  }

  lemma GluedApart(x: Text, v: Text, fs: seq<Text>, n: nat)
    requires fs != [] && Clear(v, n)
    ensures !IsNumber(Glue(x + v, fs)[0], n)
  {
    forall k | 0 <= k < n
      ensures x + v + fs[0] != NatText(k)
    {
      ValueApart(x, v, fs[0], k, n);
    }
  }

  /** A trap costs a field: afterwards three at least must survive. */
  lemma {:induction false} TrapCosts(m: Marked, k: nat, v: Text, n: nat)
    requires SlotsIn(m, k, n) && TrapAt(m, k) && k < n && Clear(v, n)
    ensures Excess(Collapse(Fields(m), NatText(k), v), n) >= 3
  {
    var d := NatText(k);
    var r := m.rest;
    NatTextInjective(m.slot, k);
    if m.slot == k {
      FieldsCut(m);
      TrapCosts(r, k, v, n);
      MostGlue(m.lit + v, Collapse(Fields(r), d, v), n);
    } else if r.Cut? && r.lit == d {
      TrapSprings(m, k, v, n);
    } else {
      TrapCosts(r, k, v, n);
      CollapsePasses(m, d, v);
      MostTwice(m.lit, NatText(m.slot), Collapse(Fields(r), d, v), n);
    }
  }

  /** Two more fields in front let one more be swallowed at most. */
  lemma MostTwice(x: Text, y: Text, fs: seq<Text>, n: nat)
    requires fs != []
    ensures Most([x] + ([y] + fs), n) <= 1 + Most(fs, n)
  {
    MostCons(y, fs, n);
    var t := [y] + fs;
    assert t[1..] == fs;
    MostCons(x, t, n);
  }

  /** What a sprung trap leaves: the two slots and the text between them glued to the value. */
  lemma TrapCollapse(m: Marked, d: Text, v: Text)
    requires m.Cut? && m.rest.Cut? && m.rest.lit == d && NatText(m.slot) != d
    ensures var more := [NatText(m.rest.slot)] + Fields(m.rest.rest);
      Collapse(Fields(m), d, v) == [m.lit] + Glue(NatText(m.slot) + v, Collapse(more, d, v))
  {
    FieldsCut(m);
    FieldsCut(m.rest);
    var tail := Fields(m)[1..];
    var more := [NatText(m.rest.slot)] + Fields(m.rest.rest);
    assert tail[0] == NatText(m.slot) && tail[1] == d && |tail| >= 3;
    assert tail[2..] == more;
  }

  lemma GluedExcess(l: Text, s: Text, v: Text, c: seq<Text>, n: nat)
    requires c != [] && Clear(v, n)
    ensures Excess([l] + Glue(s + v, c), n) == Excess(c, n) + 1
  {
    MostGlue(s + v, c, n);
    GluedApart(s, v, c, n);
    MostCons(l, Glue(s + v, c), n);
  }

  lemma SlotExcess(d: Text, m: Marked, n: nat)
    ensures Excess([d] + Fields(m), n) >= 2
  {
    FieldsOdd(m);
    MostBound([d] + Fields(m), n);
  }

  lemma TrapSprings(m: Marked, k: nat, v: Text, n: nat)
    requires m.Cut? && m.rest.Cut? && m.rest.lit == NatText(k) && m.slot != k && k < n && Clear(v, n)
    ensures Excess(Collapse(Fields(m), NatText(k), v), n) >= 3
  {
    NatTextInjective(m.slot, k);
    TrapCollapse(m, NatText(k), v);
    var more := [NatText(m.rest.slot)] + Fields(m.rest.rest);
    SlotExcess(NatText(m.rest.slot), m.rest.rest, n);
    ExcessKept(more, k, v, n);
    GluedExcess(m.lit, NatText(m.slot), v, Collapse(more, NatText(k), v), n);
  }

  lemma {:induction false} FieldsOdd(m: Marked)
    ensures |Fields(m)| % 2 == 1
  {
    if m.Cut? {
      FieldsOdd(m.rest);
    }
  }

  // ---------------------------------------------------------------------------------------------
  // The whole second pass

  /** Stages k to the end: every marker replaced by its value, as the source's loop runs it. */
  function FillMarkers(t: Text, values: seq<Text>, k: nat): Text
    requires k <= |values|
    decreases |values| - k
  {
    if k == |values| then t else FillMarkers(ReplaceAll(t, Marker(k), values[k]), values, k + 1)
  }

  function CollapseFrom(fs: seq<Text>, values: seq<Text>, k: nat): (r: seq<Text>)
    requires fs != [] && k <= |values|
    ensures r != []
    decreases |values| - k
  {
    if k == |values| then fs else CollapseFrom(Collapse(fs, NatText(k), values[k]), values, k + 1)
  }

  lemma {:induction false} CollapseNulFree(fs: seq<Text>, d: Text, v: Text)
    requires fs != [] && AllNulFree(fs) && NulFree(v)
    ensures AllNulFree(Collapse(fs, d, v))
    decreases |fs|
  {
    if |fs| >= 2 {
      CollapseNulFree(fs[1..], d, v);
      assert NulFree(fs[0]);
      if |fs| >= 3 {
        CollapseNulFree(fs[2..], d, v);
        GlueNulFree(fs[0] + v, Collapse(fs[2..], d, v));
      }
    }
  }

  lemma GlueNulFree(x: Text, fs: seq<Text>)
    requires fs != [] && NulFree(x) && AllNulFree(fs)
    ensures AllNulFree(Glue(x, fs))
  {
    assert NulFree(fs[0]);
  }

  lemma {:induction false} FillIsCollapse(fs: seq<Text>, values: seq<Text>, k: nat)
    requires fs != [] && k <= |values| && AllNulFree(fs) && AllClear(values, |values|)
    ensures FillMarkers(Join(fs), values, k) == Join(CollapseFrom(fs, values, k))
    ensures AllNulFree(CollapseFrom(fs, values, k))
    decreases |values| - k
  {
    if k < |values| {
      var v := values[k];
      assert Clear(v, |values|);
      NatTextNulFree(k);
      CollapseJoins(fs, NatText(k), v);
      CollapseNulFree(fs, NatText(k), v);
      FillIsCollapse(Collapse(fs, NatText(k), v), values, k + 1);
    }
  }

  lemma {:induction false} ExcessKeptByAll(fs: seq<Text>, values: seq<Text>, k: nat)
    requires fs != [] && k <= |values| && AllClear(values, |values|)
    ensures Excess(CollapseFrom(fs, values, k), |values|) >= Excess(fs, |values|)
    decreases |values| - k
  {
    if k < |values| {
      assert Clear(values[k], |values|);
      ExcessKept(fs, k, values[k], |values|);
      ExcessKeptByAll(Collapse(fs, NatText(k), values[k]), values, k + 1);
    }
  }

  /** Without a trap the stages end in one field: the text with every slot filled. */
  lemma {:induction false} StagesFill(m: Marked, values: seq<Text>, k: nat)
    requires k <= |values| && SlotsIn(m, k, |values|) && AllClear(values, |values|)
    requires !Trapped(m, k, |values|)
    ensures SlotsIn(m, 0, |values|) && CollapseFrom(Fields(m), values, k) == [Fill(m, values)]
    decreases |values| - k
  {
    var n := |values|;
    if k == n {
      assert m.End?;
    } else {
      var v := values[k];
      assert Clear(v, n);
      var next := Merge(m, k, v);
      MergeCollapses(m, k, v, n);
      MergeSlots(m, k, v, n);
      MergeFills(m, k, values);
      forall j | k + 1 <= j < n
        ensures !TrapAt(next, j)
      {
        MergeTraps(m, k, v, j, n);
      }
      StagesFill(next, values, k + 1);
    }
  }

  /** With a trap at least three fields are left, whatever the later stages do. */
  lemma {:induction false} StagesStick(m: Marked, values: seq<Text>, k: nat)
    requires k <= |values| && SlotsIn(m, k, |values|) && AllClear(values, |values|)
    requires Trapped(m, k, |values|)
    ensures |CollapseFrom(Fields(m), values, k)| >= 3
    decreases |values| - k
  {
    var n := |values|;
    var j :| k <= j < n && TrapAt(m, j);
    var v := values[k];
    assert Clear(v, n);
    var next := Collapse(Fields(m), NatText(k), v);
    if TrapAt(m, k) {
      TrapCosts(m, k, v, n);
      ExcessKeptByAll(next, values, k + 1);
    } else {
      MergeCollapses(m, k, v, n);
      MergeSlots(m, k, v, n);
      MergeTraps(m, k, v, j, n);
      StagesStick(Merge(m, k, v), values, k + 1);
    }
  }

  lemma {:induction false} FillNulFree(m: Marked, values: seq<Text>)
    requires SlotsIn(m, 0, |values|) && Plain(m) && AllClear(values, |values|)
    ensures NulFree(Fill(m, values))
  {
    if m.Cut? {
      assert Clear(values[m.slot], |values|);
      FillNulFree(m.rest, values);
    }
  }

  // ---------------------------------------------------------------------------------------------
  // Main results

  /** The protected substitution: the two passes one after the other. */
  function Protected(t: Text, words: seq<Text>, values: seq<Text>): Text
    requires [] !in words && |words| == |values|
  {
    FillMarkers(MarkWords(t, words, |words|), values, 0)
  }

  /** The text as the first pass sees it: literals and the slots of the words, in order. */
  function Slots(t: Text, words: seq<Text>): Marked
    requires [] !in words
  {
    Segment(t, words, |words|)
  }

  /**
   * What the slots are: the words put back give the text, the literals between hold no word, and the
   * slot numbers are those of the words.
   */
  lemma SlotsMean(t: Text, words: seq<Text>)
    requires NulFree(t) && AllClear(words, |words|)
    ensures [] !in words
    ensures var m := Slots(t, words);
      SlotsIn(m, 0, |words|) && Fill(m, words) == t && Plain(m) && WithoutAll(m, words)
  {
    SegmentMeans(t, words, |words|);
    assert words[..|words|] == words;
  }

  /**
   * The two passes are one simultaneous replacement, every word of the text by its value and nothing
   * else, exactly when no literal between two slots spells a slot number that is below the left slot
   * and not above the right one. Otherwise NULs stay behind.
   */
  lemma SimultaneousExactly(t: Text, words: seq<Text>, values: seq<Text>)
    requires NulFree(t) && |words| == |values|
    requires AllClear(words, |words|) && AllClear(values, |values|)
    ensures [] !in words && SlotsIn(Slots(t, words), 0, |values|)
    ensures Protected(t, words, values) == Fill(Slots(t, words), values) <==>
      !Trapped(Slots(t, words), 0, |words|)
    ensures NUL in Protected(t, words, values) <==> Trapped(Slots(t, words), 0, |words|)
  {
    var n := |words|;
    SlotsMean(t, words);
    SegmentMeans(t, words, n);
    var m := Slots(t, words);
    JoinFields(m);
    FieldsNulFree(m);
    FillIsCollapse(Fields(m), values, 0);
    FillNulFree(m, values);
    if Trapped(m, 0, n) {
      StagesStick(m, values, 0);
    } else {
      StagesFill(m, values, 0);
    }
  }

  ghost predicate SameWidths(words: seq<Text>, values: seq<Text>) {
    |words| == |values| && forall k | 0 <= k < |words| :: |words[k]| == |values[k]|
  }

  lemma {:induction false} FillKeepsLength(m: Marked, words: seq<Text>, values: seq<Text>)
    requires SameWidths(words, values) && SlotsIn(m, 0, |words|)
    ensures |Fill(m, values)| == |Fill(m, words)|
  {
    if m.Cut? {
      FillKeepsLength(m.rest, words, values);
    }
  }

  /** With values as wide as their words, a text without a trap keeps its length. */
  lemma SubstitutionKeepsLength(t: Text, words: seq<Text>, values: seq<Text>)
    requires NulFree(t) && SameWidths(words, values)
    requires AllClear(words, |words|) && AllClear(values, |values|)
    requires [] !in words && !Trapped(Slots(t, words), 0, |words|)
    ensures |Protected(t, words, values)| == |t|
  {
    SlotsMean(t, words);
    SimultaneousExactly(t, words, values);
    FillKeepsLength(Slots(t, words), words, values);
  }

  lemma {:induction false} OneLiteral(t: Text, words: seq<Text>, k: nat)
    requires k <= |words| && [] !in words && forall w | w in words :: !Occurs(w, t)
    ensures Segment(t, words, k) == End(t)
  {
    if k > 0 {
      OneLiteral(t, words, k - 1);
      assert words[k - 1] in words;
      SplitNothing(t, words[k - 1], k - 1);
    }
  }

  lemma {:induction false} SplitNothing(t: Text, w: Text, k: nat)
    requires w != [] && !Occurs(w, t)
    ensures Split(t, w, k) == End(t)
    decreases |t|
  {
    if |t| >= |w| {
      NotNow(w, t);
      NotLater(w, t);
      SplitNothing(t[1..], w, k);
      assert t == [t[0]] + t[1..];
    }
  }

  /** A text holding no word comes out as it was, digits or not. */
  lemma UntouchedText(t: Text, words: seq<Text>, values: seq<Text>)
    requires NulFree(t) && |words| == |values| && forall w | w in words :: !Occurs(w, t)
    requires AllClear(words, |words|) && AllClear(values, |values|)
    ensures [] !in words && Protected(t, words, values) == t
  {
    SlotsMean(t, words);
    OneLiteral(t, words, |words|);
    SimultaneousExactly(t, words, values);
  }

  /** Text without digits has no trap, whatever the words. */
  lemma {:induction false} NoDigitNoTrap(m: Marked, words: seq<Text>, k: nat)
    requires SlotsIn(m, 0, |words|) && forall u | u in Fill(m, words) :: !Digit(u)
    ensures !TrapAt(m, k)
  {
    NatTextReads(k);
    if m.Cut? {
      var rest := Fill(m.rest, words);
      assert forall u | u in rest :: u in Fill(m, words);
      NoDigitNoTrap(m.rest, words, k);
      assert forall u | u in m.rest.lit :: u in rest;
      assert Digit(NatText(k)[0]);
    }
  }

  // ---------------------------------------------------------------------------------------------
  // The constructor's own words and values

  /** A text with any unit but a digit is in no slot number. */
  lemma NonDigitClear(w: Text, i: nat, n: nat)
    requires NulFree(w) && i < |w| && !Digit(w[i])
    ensures Clear(w, n)
  {
    forall k | 0 <= k < n
      ensures !Occurs(w, NatText(k))
    {
      NatTextReads(k);
      forall j | 0 <= j <= |NatText(k)|
        ensures !(w <= NatText(k)[j..])
      {
        var t := NatText(k)[j..];
        if |w| <= |t| {
          assert t[i] == NatText(k)[j + i];
        }
      }
    }
  }

  lemma {:induction false} NatTextWidth(k: nat, width: nat, bound: nat)
    requires k < bound && (bound == 10 || (bound == 100 && width > 1))
    ensures |NatText(k)| <= Max(width, 1)
  {
    if bound == 100 {
      NatTextWidth(k / 10, 1, 10);
    }
  }

  /** The two number slots hold five digits; slot numbers below a hundred hold two at most. */
  lemma NumberClear(w: Text, n: nat)
    requires NulFree(w) && |w| > 2 && n <= 100
    ensures Clear(w, n)
  {
    forall k | 0 <= k < n
      ensures !Occurs(w, NatText(k))
    {
      NatTextWidth(k, 2, 100);
      TooShort(w, NatText(k));
    }
  }

  const GAME_PATH: string := "/Game/"
  const CORPUS_NAME: string := "Corpus."

  predicate Kept(t: Text) {
    Ascii(GAME_PATH) <= t || Ascii(CORPUS_NAME) <= t
  }

  function Swapped(t: Text, swap: bool): Text {
    if swap && t == Ascii("de") then Ascii("fr")
    else if swap && t == Ascii("fr") then Ascii("de")
    else t
  }

  /** The constructor's substitution with its two loops. */
  method Substitute(t: Text, words: seq<Text>, values: seq<Text>, swap: bool) returns (output: Text)
    requires [] !in words && |words| == |values|
    ensures Kept(t) ==> output == t
    ensures !Kept(t) ==> output == Swapped(Protected(t, words, values), swap)
  {
    if Kept(t) {
      return t;
    }
    output := t;
    for i := 0 to |words|
      invariant output == MarkWords(t, words, i)
    {
      output := ReplaceAll(output, words[i], Marker(i));
    }
    for i := 0 to |words|
      invariant FillMarkers(output, values, i) == Protected(t, words, values)
    {
      output := ReplaceAll(output, Marker(i), values[i]);
    }
    output := Swapped(output, swap);
  }
}
