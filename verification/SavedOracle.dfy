/**
 * The comparison of a stored join with a saved oracle, one page of lines at a time. It accepts exactly the
 * stores whose lines are a permutation of the oracle's, which must have distinct ids.
 */
module SavedOracle {
  import opened Basics
  import opened Utf16

  /** A line: its id and everything the comparison looks at, in its canonical form. */
  datatype Line = Line(id: Text, form: Text)

  ghost predicate DistinctIds(lines: seq<Line>) {
    forall i, j | 0 <= i < j < |lines| :: lines[i].id != lines[j].id
  }

  ghost predicate HasId(lines: seq<Line>, id: Text) {
    exists i :: 0 <= i < |lines| && lines[i].id == id
  }

  /** The comparison of two lists of lines: no id twice, and equal lines under equal ids. */
  ghost predicate SameLines(left: seq<Line>, right: seq<Line>) {
    && DistinctIds(left) && DistinctIds(right)
    && (forall x | x in left :: x in right) && (forall x | x in right :: x in left)
  }

  // ---------------------------------------------------------------------------------------------
  // Comparing one page

  function ById(lines: seq<Line>): map<Text, Line> {
    if lines == [] then map[]
    else
      var last := lines[|lines| - 1];
      ById(lines[..|lines| - 1])[last.id := last]
  }

  lemma {:induction false} ByIdHas(lines: seq<Line>, id: Text)
    ensures id in ById(lines) <==> HasId(lines, id)
    ensures id in ById(lines) ==> ById(lines)[id] in lines && ById(lines)[id].id == id
  {
    if lines != [] {
      var n := |lines| - 1;
      ByIdHas(lines[..n], id);
      assert lines == lines[..n] + [lines[n]];
      if HasId(lines[..n], id) {
        var i :| 0 <= i < |lines[..n]| && lines[..n][i].id == id;
        assert lines[i].id == id;
      }
      if HasId(lines, id) && lines[n].id != id {
        var i :| 0 <= i < |lines| && lines[i].id == id;
        assert lines[..n][i].id == id;
      }
    }
  }

  lemma {:induction false} ByIdOf(lines: seq<Line>, x: Line)
    requires DistinctIds(lines)
    ensures x in lines <==> x.id in ById(lines) && ById(lines)[x.id] == x
  {
    ByIdHas(lines, x.id);
    if x in lines {
      var y := ById(lines)[x.id];
      var i :| 0 <= i < |lines| && lines[i] == x;
      assert HasId(lines, x.id);
      var j :| 0 <= j < |lines| && lines[j] == y;
    }
  }

  /** The index of one side; a repeated id is a difference. */
  method Index(lines: seq<Line>) returns (index: map<Text, Line>, distinct: bool)
    ensures index == ById(lines) && (distinct <==> DistinctIds(lines))
  {
    index, distinct := map[], true;
    for i := 0 to |lines|
      invariant index == ById(lines[..i]) && (distinct <==> DistinctIds(lines[..i]))
    {
      IndexSnoc(lines, i);
      distinct := distinct && lines[i].id !in index;
      index := index[lines[i].id := lines[i]];
    }
    assert lines[..|lines|] == lines;
  }

  lemma IndexSnoc(lines: seq<Line>, i: nat)
    requires i < |lines|
    ensures ById(lines[..i + 1]) == ById(lines[..i])[lines[i].id := lines[i]]
    ensures DistinctIds(lines[..i + 1]) <==> DistinctIds(lines[..i]) && lines[i].id !in ById(lines[..i])
  {
    ByIdHas(lines[..i], lines[i].id);
    DistinctSnoc(lines[..i], lines[i]);
    TakeSnoc(lines, i);
    assert lines[..i + 1][..i] == lines[..i];
  }

  lemma DistinctSnoc(lines: seq<Line>, x: Line)
    ensures DistinctIds(lines + [x]) <==> DistinctIds(lines) && !HasId(lines, x.id)
  {
    var all := lines + [x];
    assert forall i | 0 <= i < |lines| :: all[i] == lines[i];
    assert all[|lines|] == x;
  }

  lemma SidesAgree(left: seq<Line>, right: seq<Line>)
    ensures DistinctIds(left) && DistinctIds(right) ==>
      (SameLines(left, right) <==> ById(left) == ById(right))
  {
    if DistinctIds(left) && DistinctIds(right) {
      forall x
        ensures x in left <==> x.id in ById(left) && ById(left)[x.id] == x
        ensures x in right <==> x.id in ById(right) && ById(right)[x.id] == x
      {
        ByIdOf(left, x);
        ByIdOf(right, x);
      }
      if SameLines(left, right) {
        forall id
          ensures id in ById(left) <==> id in ById(right)
          ensures id in ById(left) ==> ById(left)[id] == ById(right)[id]
        {
          ByIdHas(left, id);
          ByIdHas(right, id);
        }
        assert ById(left) == ById(right);
      }
    }
  }

  /** Whether two lists of lines match by id, and how many ids of the left the right has. */
  method CompareLines(left: seq<Line>, right: seq<Line>) returns (equal: bool, matched: nat)
    ensures equal <==> SameLines(left, right)
    ensures equal ==> matched == |left| == |right|
  {
    var l, onceLeft := Index(left);
    var r, onceRight := Index(right);
    SidesAgree(left, right);
    equal := onceLeft && onceRight && l == r;
    matched := |set id | id in l && id in r|;
    if equal {
      assert (set id | id in l && id in r) == l.Keys;
      IndexSize(left);
      IndexSize(right);
    }
  }

  lemma {:induction false} IndexSize(lines: seq<Line>)
    requires DistinctIds(lines)
    ensures |ById(lines)| == |lines| && |ById(lines).Keys| == |lines|
  {
    if lines != [] {
      var n := |lines| - 1;
      IndexSize(lines[..n]);
      ByIdHas(lines[..n], lines[n].id);
      assert lines == lines[..n] + [lines[n]];
      assert ById(lines).Keys == ById(lines[..n]).Keys + {lines[n].id};
    }
  }

  // ---------------------------------------------------------------------------------------------
  // The oracle's side of a page

  /** The oracle's lines for the ids of a page, in the page's order; unknown ids are left out. */
  function Expected(expected: map<Text, Line>, page: seq<Line>): seq<Line> {
    if page == [] then []
    else
      var id := page[|page| - 1].id;
      Expected(expected, page[..|page| - 1]) + if id in expected then [expected[id]] else []
  }

  ghost predicate Keyed(expected: map<Text, Line>) {
    forall id | id in expected :: expected[id].id == id
  }

  lemma {:induction false} ExpectedHas(expected: map<Text, Line>, page: seq<Line>, x: Line)
    requires Keyed(expected)
    ensures x in Expected(expected, page) <==> HasId(page, x.id) && x.id in expected && expected[x.id] == x
  {
    if page != [] {
      var n := |page| - 1;
      ExpectedHas(expected, page[..n], x);
      if HasId(page[..n], x.id) {
        var i :| 0 <= i < |page[..n]| && page[..n][i].id == x.id;
        assert page[i].id == x.id;
      }
      if HasId(page, x.id) && page[n].id != x.id {
        var i :| 0 <= i < |page| && page[i].id == x.id;
        assert page[..n][i].id == x.id;
      }
    }
  }

  lemma {:induction false} ExpectedAll(expected: map<Text, Line>, page: seq<Line>)
    requires forall x | x in page :: x.id in expected && expected[x.id] == x
    ensures Expected(expected, page) == page
  {
    if page != [] {
      var n := |page| - 1;
      assert page == page[..n] + [page[n]];
      assert page[n] in page && forall x | x in page[..n] :: x in page;
      ExpectedAll(expected, page[..n]);
    }
  }

  /** A page matches exactly when its ids are distinct and every line is still expected as it is. */
  lemma PageMatches(expected: map<Text, Line>, page: seq<Line>)
    requires Keyed(expected)
    ensures SameLines(Expected(expected, page), page) <==>
      DistinctIds(page) && forall x | x in page :: x.id in expected && expected[x.id] == x
  {
    if SameLines(Expected(expected, page), page) {
      forall x | x in page
        ensures x.id in expected && expected[x.id] == x
      {
        ExpectedHas(expected, page, x);
      }
    }
    if DistinctIds(page) && forall x | x in page :: x.id in expected && expected[x.id] == x {
      ExpectedAll(expected, page);
    }
  }

  // ---------------------------------------------------------------------------------------------
  // All pages

  /** The stored lines up to now: distinct ids, each a line of the oracle. */
  ghost predicate Good(oracle: map<Text, Line>, stored: seq<Line>) {
    DistinctIds(stored) && forall x | x in stored :: x.id in oracle && oracle[x.id] == x
  }

  /** What is still expected once some lines are stored. */
  function Left(oracle: map<Text, Line>, stored: seq<Line>): map<Text, Line> {
    if stored == [] then oracle else Left(oracle, stored[..|stored| - 1]) - {stored[|stored| - 1].id}
  }

  lemma {:induction false} LeftHas(oracle: map<Text, Line>, stored: seq<Line>, id: Text)
    ensures id in Left(oracle, stored) <==> id in oracle && !HasId(stored, id)
    ensures id in Left(oracle, stored) ==> Left(oracle, stored)[id] == oracle[id]
  {
    if stored != [] {
      var n := |stored| - 1;
      LeftHas(oracle, stored[..n], id);
      if HasId(stored[..n], id) {
        var i :| 0 <= i < |stored[..n]| && stored[..n][i].id == id;
        assert stored[i].id == id;
      }
      if HasId(stored, id) && stored[n].id != id {
        var i :| 0 <= i < |stored| && stored[i].id == id;
        assert stored[..n][i].id == id;
      }
    }
  }

  /** Given good lines so far, one page more is good exactly when it matches what is left. */
  lemma PageStep(oracle: map<Text, Line>, before: seq<Line>, page: seq<Line>)
    requires Keyed(oracle) && Good(oracle, before)
    ensures Keyed(Left(oracle, before))
    ensures SameLines(Expected(Left(oracle, before), page), page) <==> Good(oracle, before + page)
  {
    var left := Left(oracle, before);
    var all := before + page;
    forall id
      ensures id in left <==> id in oracle && !HasId(before, id)
      ensures id in left ==> left[id] == oracle[id]
    {
      LeftHas(oracle, before, id);
    }
    PageMatches(left, page);
    DistinctJoin(before, page);
    assert forall x :: x in all <==> x in before || x in page;
  }

  lemma DistinctJoin(a: seq<Line>, b: seq<Line>)
    ensures DistinctIds(a + b) <==>
      DistinctIds(a) && DistinctIds(b) && forall x | x in b :: !HasId(a, x.id)
  {
    var all := a + b;
    assert forall i | 0 <= i < |a| :: all[i] == a[i];
    assert forall j | 0 <= j < |b| :: all[|a| + j] == b[j];
    if DistinctIds(a) && DistinctIds(b) && forall x | x in b :: !HasId(a, x.id) {
      forall i, j | 0 <= i < j < |all|
        ensures all[i].id != all[j].id
      {
        if i < |a| <= j {
          assert b[j - |a|] in b;
        } else if |a| <= i {
          assert all[i] == b[i - |a|] && all[j] == b[j - |a|];
        }
      }
    }
    if DistinctIds(all) {
      forall x | x in b
        ensures !HasId(a, x.id)
      {
        var j :| 0 <= j < |b| && b[j] == x;
        assert forall i | 0 <= i < |a| :: all[i].id != all[|a| + j].id;
      }
    }
  }

  // ---------------------------------------------------------------------------------------------
  // Good stores of the right size are permutations

  lemma {:induction false} OnceCounted(lines: seq<Line>, x: Line)
    requires DistinctIds(lines)
    ensures multiset(lines)[x] == if x in lines then 1 else 0
  {
    if lines != [] {
      var n := |lines| - 1;
      assert lines == lines[..n] + [lines[n]];
      OnceCounted(lines[..n], x);
    }
  }

  lemma TwiceCounted(lines: seq<Line>, i: nat, j: nat)
    requires i < j < |lines| && lines[i] == lines[j]
    ensures multiset(lines)[lines[i]] >= 2
  {
    assert lines == lines[..j] + [lines[j]] + lines[j + 1..];
    assert lines[..j][i] == lines[i];
    assert lines[i] in multiset(lines[..j]);
  }

  lemma PermutationIsGood(oracle: seq<Line>, stored: seq<Line>)
    requires DistinctIds(oracle) && multiset(stored) == multiset(oracle)
    ensures Good(ById(oracle), stored)
  {
    forall x | x in stored
      ensures x in oracle && x.id in ById(oracle) && ById(oracle)[x.id] == x
    {
      assert x in multiset(oracle);
      ByIdOf(oracle, x);
    }
    forall i, j | 0 <= i < j < |stored|
      ensures stored[i].id != stored[j].id
    {
      var x := stored[i];
      OnceCounted(oracle, x);
      assert x in stored && stored[j] in stored;
      if stored[j] == x {
        TwiceCounted(stored, i, j);
      }
    }
  }

  lemma GoodIsPermutation(oracle: seq<Line>, stored: seq<Line>)
    requires DistinctIds(oracle) && Good(ById(oracle), stored) && |stored| == |oracle|
    ensures multiset(stored) == multiset(oracle)
  {
    forall x
      ensures multiset(stored)[x] <= multiset(oracle)[x]
    {
      OnceCounted(stored, x);
      OnceCounted(oracle, x);
      ByIdOf(oracle, x);
    }
    assert multiset(stored) <= multiset(oracle);
    assert multiset(oracle) == multiset(stored) + (multiset(oracle) - multiset(stored));
    assert |multiset(oracle) - multiset(stored)| == 0;
  }

  lemma {:induction false} LeftSize(oracle: map<Text, Line>, stored: seq<Line>)
    requires Good(oracle, stored)
    ensures |Left(oracle, stored)| == |oracle| - |stored|
  {
    if stored != [] {
      var n := |stored| - 1;
      assert stored == stored[..n] + [stored[n]];
      DistinctSnoc(stored[..n], stored[n]);
      assert stored[n] in stored && forall x | x in stored[..n] :: x in stored;
      LeftSize(oracle, stored[..n]);
      LeftHas(oracle, stored[..n], stored[n].id);
      var before := Left(oracle, stored[..n]);
      assert (before - {stored[n].id}).Keys == before.Keys - {stored[n].id};
      assert |before.Keys| == |before| && |(before - {stored[n].id}).Keys| == |before - {stored[n].id}|;
    }
  }

  /** All pages good: nothing is left exactly when the store is a permutation of the oracle. */
  lemma NothingLeft(oracle: seq<Line>, stored: seq<Line>)
    requires DistinctIds(oracle) && Good(ById(oracle), stored)
    ensures |Left(ById(oracle), stored)| == 0 <==> multiset(stored) == multiset(oracle)
  {
    LeftSize(ById(oracle), stored);
    IndexSize(oracle);
    if |stored| == |oracle| {
      GoodIsPermutation(oracle, stored);
    }
    if multiset(stored) == multiset(oracle) {
      assert |stored| == |multiset(stored)| == |oracle|;
    }
  }

  /** A prefix of a permutation is good: one bad page condemns the store. */
  lemma PrefixGood(oracle: seq<Line>, stored: seq<Line>, n: nat)
    requires DistinctIds(oracle) && n <= |stored| && multiset(stored) == multiset(oracle)
    ensures Good(ById(oracle), stored[..n])
  {
    PermutationIsGood(oracle, stored);
    assert forall x | x in stored[..n] :: x in stored;
  }

  // ---------------------------------------------------------------------------------------------
  // The loop

  const PAGE: nat := 1000

  /** The saved lines by id; a repeated id stops the comparison. */
  method Load(oracle: seq<Line>) returns (r: Option<map<Text, Line>>)
    ensures r == if DistinctIds(oracle) then Some(ById(oracle)) else None
  {
    var expected := map[];
    for i := 0 to |oracle|
      invariant expected == ById(oracle[..i]) && DistinctIds(oracle[..i])
    {
      ByIdHas(oracle[..i], oracle[i].id);
      DistinctSnoc(oracle[..i], oracle[i]);
      TakeSnoc(oracle, i);
      assert oracle[..i + 1][..i] == oracle[..i];
      if oracle[i].id in expected {
        assert !DistinctIds(oracle[..i + 1]);
        return None;
      }
      expected := expected[oracle[i].id := oracle[i]];
    }
    assert oracle[..|oracle|] == oracle;
    r := Some(expected);
  }

  /** The ids of a page are expected no more. */
  method Delete(expected: map<Text, Line>, page: seq<Line>, ghost oracle: map<Text, Line>, ghost before: seq<Line>)
    returns (left: map<Text, Line>)
    requires expected == Left(oracle, before)
    ensures left == Left(oracle, before + page)
  {
    left := expected;
    assert before + page[..0] == before;
    for i := 0 to |page|
      invariant left == Left(oracle, before + page[..i])
    {
      LeftSnoc(oracle, before + page[..i], page[i]);
      assert before + page[..i + 1] == before + page[..i] + [page[i]];
      left := left - {page[i].id};
    }
    assert page[..|page|] == page;
  }

  lemma LeftSnoc(oracle: map<Text, Line>, stored: seq<Line>, x: Line)
    ensures Left(oracle, stored + [x]) == Left(oracle, stored) - {x.id}
  {
    assert (stored + [x])[..|stored|] == stored;
  }

  lemma OracleKeyed(oracle: seq<Line>)
    ensures Keyed(ById(oracle))
  {
    forall id | id in ById(oracle)
      ensures ById(oracle)[id].id == id
    {
      ByIdHas(oracle, id);
    }
  }

  lemma NextPage(stored: seq<Line>, start: nat, end: nat)
    requires start <= end <= |stored|
    ensures stored[..start] + stored[start..end] == stored[..end]
  {
  }

  /** The pages of a store against a loaded oracle: how many lines matched and what is left, if all did. */
  method ComparePages(oracle: seq<Line>, stored: seq<Line>, all: map<Text, Line>)
    returns (r: Option<(nat, map<Text, Line>)>)
    requires all == ById(oracle) && DistinctIds(oracle)
    ensures r.Some? ==> Good(all, stored) && r.value == (|stored|, Left(all, stored))
    ensures r.None? ==> multiset(stored) != multiset(oracle)
  {
    var expected, matched, start := all, 0, 0;
    OracleKeyed(oracle);
    assert stored[..0] == [];
    while start < |stored|
      invariant 0 <= start <= |stored| && matched == start
      invariant expected == Left(all, stored[..start]) && Good(all, stored[..start])
    {
      var end := if start + PAGE < |stored| then start + PAGE else |stored|;
      var page := stored[start..end];
      PageStep(all, stored[..start], page);
      NextPage(stored, start, end);
      var equal, found := CompareLines(Expected(expected, page), page);
      if !equal {
        if multiset(stored) == multiset(oracle) {
          PrefixGood(oracle, stored, end);
        }
        return None;
      }
      matched := matched + found;
      expected := Delete(expected, page, all, stored[..start]);
      start := end;
    }
    assert stored[..|stored|] == stored;
    r := Some((matched, expected));
  }

  /**
   * The whole comparison: it accepts exactly when the header agrees, the oracle's ids are distinct, and the
   * stored lines are the oracle's in any order, for every number of lines and however ids repeat across pages.
   */
  method CompareSavedOracle(oracle: seq<Line>, stored: seq<Line>, headerAgrees: bool) returns (accepted: bool)
    ensures accepted <==> headerAgrees && DistinctIds(oracle) && multiset(stored) == multiset(oracle)
  {
    var loaded := Load(oracle);
    if loaded.None? || !headerAgrees {
      return false;
    }
    var expectedLines := |loaded.value|;
    var pages := ComparePages(oracle, stored, loaded.value);
    if pages.None? {
      return false;
    }
    NothingLeft(oracle, stored);
    IndexSize(oracle);
    LeftSize(loaded.value, stored);
    var (matched, left) := pages.value;
    accepted := |left| == 0 && matched == expectedLines;
  }
}
