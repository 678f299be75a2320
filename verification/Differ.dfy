/**
 * The recursive comparison of an oracle value with the engine's. Its reports are exactly the places
 * where the two differ, absent members reading as undefined and the named string lists as sorted.
 */
module Differ {
  import opened Basics
  import opened Utf16
  import opened TextEnds
  import opened BlueprintText
  import EngineAnswers

  /** A decoded value; null, booleans and numbers are leaves with their text. */
  datatype Val = Undefined | Leaf(token: Text) | Str(text: Text) | Arr(items: seq<Val>) | Rec(members: seq<Entry>)
  datatype Entry = Entry(key: Text, value: Val)

  /** What can be seen at one place. */
  datatype Kind = Missing | Token(token: Text) | String(text: Text) | List | Object
  datatype Step = Item(index: nat) | Key(key: Text)
  datatype Difference = Difference(field: Text, expected: Val, actual: Val)

  function KindOf(v: Val): Kind {
    match v
    case Undefined => Missing
    case Leaf(t) => Token(t)
    case Str(t) => String(t)
    case Arr(_) => List
    case Rec(_) => Object
  }

  /** The member under a key, or undefined. */
  function Find(ms: seq<Entry>, k: Text): Val {
    if ms == [] then Undefined else if ms[0].key == k then ms[0].value else Find(ms[1..], k)
  }

  function Keys(ms: seq<Entry>): seq<Text> {
    if ms == [] then [] else [ms[0].key] + Keys(ms[1..])
  }

  /** The value one step down; undefined where there is none. */
  function Child(v: Val, step: Step): Val {
    match step
    case Item(i) => if v.Arr? && i < |v.items| then v.items[i] else Undefined
    case Key(k) => if v.Rec? then Find(v.members, k) else Undefined
  }

  function StepText(step: Step): Text {
    match step
    case Item(i) => NatText(i)
    case Key(k) => k
  }

  const DOT: Unit := 0x2E

  function Sub(field: Text, step: Step): Text {
    field + [DOT] + StepText(step)
  }

  function FieldAt(field: Text, path: seq<Step>): Text
    decreases |path|
  {
    if path == [] then field else FieldAt(Sub(field, path[0]), path[1..])
  }

  const FACTS: string := ".facts"
  const REASONS: string := ".unknownReasons"
  const FLAGS: string := ".flags"

  /** The fields whose string lists have no order. */
  predicate Unordered(field: Text) {
    EndsWith(field, Ascii(FACTS)) || EndsWith(field, Ascii(REASONS)) || EndsWith(field, Ascii(FLAGS))
  }

  predicate Strings(v: Val) {
    v.Arr? && forall i | 0 <= i < |v.items| :: v.items[i].Str?
  }

  // ---------------------------------------------------------------------------------------------
  // Sorting strings

  ghost predicate AllStr(vs: seq<Val>) {
    forall i | 0 <= i < |vs| :: vs[i].Str?
  }

  function InsertStr(x: Val, vs: seq<Val>): (r: seq<Val>)
    requires x.Str? && AllStr(vs)
    ensures AllStr(r) && |r| == |vs| + 1
  {
    if vs == [] then [x]
    else if EngineAnswers.LessText(vs[0].text, x.text) then [vs[0]] + InsertStr(x, vs[1..])
    else [x] + vs
  }

  function SortStr(vs: seq<Val>): (r: seq<Val>)
    requires AllStr(vs)
    ensures AllStr(r) && |r| == |vs|
  {
    if vs == [] then [] else InsertStr(vs[0], SortStr(vs[1..]))
  }

  lemma {:induction false} InsertsSwap(x: Val, y: Val, vs: seq<Val>)
    requires x.Str? && y.Str? && AllStr(vs)
    ensures InsertStr(x, InsertStr(y, vs)) == InsertStr(y, InsertStr(x, vs))
  {
    EngineAnswers.LessTextTotal(x.text, y.text);
    if vs != [] {
      var h := vs[0];
      InsertsSwap(x, y, vs[1..]);
      InsertHead(x, h, vs[1..]);
      InsertHead(y, h, vs[1..]);
      assert vs == [h] + vs[1..];
      TransitiveBoth(x.text, y.text, h.text);
      InsertHead(x, h, InsertStr(y, vs[1..]));
      InsertHead(y, h, InsertStr(x, vs[1..]));
      InsertHead(x, y, vs);
      InsertHead(y, x, vs);
    } else {
      InsertHead(x, y, []);
      InsertHead(y, x, []);
    }
  }

  lemma InsertHead(x: Val, h: Val, vs: seq<Val>)
    requires x.Str? && h.Str? && AllStr(vs)
    ensures InsertStr(x, [h] + vs) ==
      if EngineAnswers.LessText(h.text, x.text) then [h] + InsertStr(x, vs) else [x] + ([h] + vs)
  {
    assert ([h] + vs)[1..] == vs;
  }

  lemma TransitiveBoth(x: Text, y: Text, h: Text)
    ensures EngineAnswers.LessText(h, x) && EngineAnswers.LessText(x, y) ==> EngineAnswers.LessText(h, y)
    ensures EngineAnswers.LessText(h, y) && EngineAnswers.LessText(y, x) ==> EngineAnswers.LessText(h, x)
  {
    if EngineAnswers.LessText(h, x) && EngineAnswers.LessText(x, y) {
      EngineAnswers.LessTextTransitive(h, x, y);
    }
    if EngineAnswers.LessText(h, y) && EngineAnswers.LessText(y, x) {
      EngineAnswers.LessTextTransitive(h, y, x);
    }
  }

  lemma {:induction false} InsertCounts(x: Val, vs: seq<Val>)
    requires x.Str? && AllStr(vs)
    ensures multiset(InsertStr(x, vs)) == multiset(vs) + multiset{x}
  {
    if vs != [] {
      assert vs == [vs[0]] + vs[1..];
      InsertCounts(x, vs[1..]);
    }
  }

  lemma {:induction false} SortCounts(vs: seq<Val>)
    requires AllStr(vs)
    ensures multiset(SortStr(vs)) == multiset(vs)
  {
    if vs != [] {
      assert vs == [vs[0]] + vs[1..];
      SortCounts(vs[1..]);
      InsertCounts(vs[0], SortStr(vs[1..]));
    }
  }

  /** Taking any one element out first does not change the sort. */
  lemma {:induction false} SortTakes(vs: seq<Val>, i: nat)
    requires AllStr(vs) && i < |vs|
    ensures AllStr(vs[..i] + vs[i + 1..])
    ensures SortStr(vs) == InsertStr(vs[i], SortStr(vs[..i] + vs[i + 1..]))
  {
    var rest := vs[..i] + vs[i + 1..];
    if i == 0 {
      assert rest == vs[1..];
    } else {
      SortTakes(vs[1..], i - 1);
      var inner := vs[1..][..i - 1] + vs[1..][i..];
      assert rest[1..] == inner && rest[0] == vs[0];
      InsertsSwap(vs[0], vs[i], SortStr(inner));
    }
  }

  lemma RestCounts(a: seq<Val>, b: seq<Val>, i: nat)
    requires a != [] && i < |b| && b[i] == a[0] && multiset(a) == multiset(b)
    ensures multiset(a[1..]) == multiset(b[..i] + b[i + 1..])
  {
    assert a == [a[0]] + a[1..];
    assert b == b[..i] + [b[i]] + b[i + 1..];
    var rest := b[..i] + b[i + 1..];
    assert multiset(rest) == multiset(b[..i]) + multiset(b[i + 1..]);
    assert multiset(b) == multiset(b[..i]) + multiset{b[i]} + multiset(b[i + 1..]);
    assert multiset(a) == multiset{a[0]} + multiset(a[1..]);
    assert multiset(rest) == multiset(b) - multiset{b[i]};
    assert multiset(a[1..]) == multiset(a) - multiset{a[0]};
  }

  /** Two lists with the same strings equally often sort alike. */
  lemma {:induction false} SameStringsSort(a: seq<Val>, b: seq<Val>)
    requires AllStr(a) && AllStr(b) && multiset(a) == multiset(b)
    ensures SortStr(a) == SortStr(b)
    decreases |a|
  {
    assert |a| == |multiset(a)| == |b|;
    if a != [] {
      assert a[0] in multiset(b);
      var i :| 0 <= i < |b| && b[i] == a[0];
      SortTakes(b, i);
      RestCounts(a, b, i);
      SameStringsSort(a[1..], b[..i] + b[i + 1..]);
    }
  }

  /** Two string lists sort alike exactly when they hold the same strings equally often. */
  lemma SortsAlike(a: seq<Val>, b: seq<Val>)
    requires AllStr(a) && AllStr(b)
    ensures SortStr(a) == SortStr(b) <==> multiset(a) == multiset(b)
  {
    SortCounts(a);
    SortCounts(b);
    if multiset(a) == multiset(b) {
      SameStringsSort(a, b);
    }
  }

  // ---------------------------------------------------------------------------------------------
  // The comparison

  function Size(v: Val): (n: nat)
    ensures n > 0
  {
    match v
    case Arr(items) => 1 + SizeItems(items)
    case Rec(ms) => 1 + SizeMembers(ms)
    case _ => 1
  }

  function SizeItems(vs: seq<Val>): nat {
    if vs == [] then 0 else Size(vs[0]) + SizeItems(vs[1..])
  }

  function SizeMembers(ms: seq<Entry>): nat {
    if ms == [] then 0 else Size(ms[0].value) + SizeMembers(ms[1..])
  }

  lemma {:induction false} ItemSize(vs: seq<Val>, i: nat)
    requires i < |vs|
    ensures Size(vs[i]) <= SizeItems(vs)
  {
    if i > 0 {
      ItemSize(vs[1..], i - 1);
    }
  }

  lemma {:induction false} MemberSize(ms: seq<Entry>, k: Text)
    requires k in Keys(ms)
    ensures Size(Find(ms, k)) <= SizeMembers(ms)
  {
    if ms[0].key != k {
      MemberSize(ms[1..], k);
    }
  }

  lemma {:induction false} FindNone(ms: seq<Entry>, k: Text)
    requires k !in Keys(ms)
    ensures Find(ms, k) == Undefined
  {
    if ms != [] {
      FindNone(ms[1..], k);
    }
  }

  lemma {:induction false} StringSizes(vs: seq<Val>)
    requires AllStr(vs)
    ensures SizeItems(vs) == |vs|
  {
    if vs != [] {
      StringSizes(vs[1..]);
    }
  }

  /** A step that one of the values has leads to a smaller pair. */
  predicate Has(v: Val, step: Step) {
    match step
    case Item(i) => v.Arr? && i < |v.items|
    case Key(k) => v.Rec? && k in Keys(v.members)
  }

  lemma ChildSize(v: Val, step: Step)
    ensures Has(v, step) ==> Size(Child(v, step)) < Size(v)
    ensures !Has(v, step) ==> Child(v, step) == Undefined
    ensures Size(Child(v, step)) <= Size(v)
  {
    match step
    case Item(i) => if Has(v, step) {
      ItemSize(v.items, i);
    }
    case Key(k) => if Has(v, step) {
      MemberSize(v.members, k);
    } else if v.Rec? {
      FindNone(v.members, k);
    }
  }

  /** `isDeepStrictEqual`: members in any order, but an undefined member is not an absent one. */
  predicate DeepEqual(l: Val, r: Val)
    decreases l
  {
    match l
    case Arr(a) => r.Arr? && |a| == |r.items| && forall i | 0 <= i < |a| :: DeepEqual(a[i], r.items[i])
    case Rec(a) =>
      && r.Rec? && |a| == |r.members|
      && forall i | 0 <= i < |a| ::
        a[i].key in Keys(r.members) && DeepEqual(a[i].value, Find(r.members, a[i].key))
    case _ => l == r
  }

  function Sorted(v: Val): (s: Val)
    requires Strings(v)
    ensures Strings(s) && Size(s) == Size(v)
  {
    StringSizes(v.items);
    StringSizes(SortStr(v.items));
    Arr(SortStr(v.items))
  }

  /** The two values as one call compares them: both sorted or neither. */
  function Paired(field: Text, l: Val, r: Val): (p: (Val, Val))
    ensures Size(p.0) == Size(l) && Size(p.1) == Size(r)
    ensures KindOf(p.0) == KindOf(l) && KindOf(p.1) == KindOf(r)
  {
    if Unordered(field) && Strings(l) && Strings(r) then (Sorted(l), Sorted(r)) else (l, r)
  }

  /** The keys of both, those of the left first. */
  function BothKeys(l: seq<Entry>, r: seq<Entry>): seq<Text> {
    Keys(l) + NewKeys(Keys(r), Keys(l))
  }

  function NewKeys(ks: seq<Text>, seen: seq<Text>): seq<Text> {
    if ks == [] then []
    else if ks[0] in seen then NewKeys(ks[1..], seen)
    else [ks[0]] + NewKeys(ks[1..], seen)
  }

  lemma {:induction false} NewKeysAre(ks: seq<Text>, seen: seq<Text>, k: Text)
    ensures k in NewKeys(ks, seen) <==> k in ks && k !in seen
  {
    if ks != [] {
      NewKeysAre(ks[1..], seen, k);
    }
  }

  function Steps(l: Val, r: Val): seq<Step>
    requires (l.Arr? && r.Arr?) || (l.Rec? && r.Rec?)
  {
    if l.Arr? then seq(Max(|l.items|, |r.items|), i requires 0 <= i => Item(i))
    else
      var ks := BothKeys(l.members, r.members);
      seq(|ks|, i requires 0 <= i < |ks| => Key(ks[i]))
  }

  lemma StepsAre(l: Val, r: Val, step: Step)
    requires (l.Arr? && r.Arr?) || (l.Rec? && r.Rec?)
    ensures step in Steps(l, r) <==> Has(l, step) || Has(r, step)
  {
    var steps := Steps(l, r);
    if l.Arr? {
      if step.Item? && step.index < |steps| {
        assert steps[step.index] == step;
      }
    } else {
      var ks := BothKeys(l.members, r.members);
      if step.Key? {
        NewKeysAre(Keys(r.members), Keys(l.members), step.key);
        if step.key in ks {
          var i :| 0 <= i < |ks| && ks[i] == step.key;
          assert steps[i] == step;
        }
      }
    }
  }

  lemma StepsShrink(l: Val, r: Val, i: nat)
    requires ((l.Arr? && r.Arr?) || (l.Rec? && r.Rec?)) && i < |Steps(l, r)|
    ensures Size(Child(l, Steps(l, r)[i])) + Size(Child(r, Steps(l, r)[i])) < Size(l) + Size(r)
  {
    var step := Steps(l, r)[i];
    assert step in Steps(l, r);
    StepsAre(l, r, step);
    ChildSize(l, step);
    ChildSize(r, step);
  }

  /** What the comparison of two values reports, in order. */
  function Compare(field: Text, left: Val, right: Val): seq<Difference>
    decreases Size(left) + Size(right), 1, 0
  {
    var (l, r) := Paired(field, left, right);
    if DeepEqual(l, r) then []
    else if (l.Arr? && r.Arr?) || (l.Rec? && r.Rec?) then CompareSteps(field, l, r, 0)
    else [Difference(field, l, r)]
  }

  function CompareSteps(field: Text, l: Val, r: Val, i: nat): seq<Difference>
    requires ((l.Arr? && r.Arr?) || (l.Rec? && r.Rec?)) && i <= |Steps(l, r)|
    decreases Size(l) + Size(r), 0, |Steps(l, r)| - i
  {
    var steps := Steps(l, r);
    if i == |steps| then []
    else
      StepsShrink(l, r, i);
      Compare(Sub(field, steps[i]), Child(l, steps[i]), Child(r, steps[i])) + CompareSteps(field, l, r, i + 1)
  }

  // ---------------------------------------------------------------------------------------------
  // What two values show

  /** What is seen on a path from both sides, lists sorted where both sides' are string lists. */
  function SeeBoth(field: Text, left: Val, right: Val, path: seq<Step>): (Kind, Kind)
    decreases |path|
  {
    var (l, r) := Paired(field, left, right);
    if path == [] then (KindOf(l), KindOf(r))
    else SeeBoth(Sub(field, path[0]), Child(l, path[0]), Child(r, path[0]), path[1..])
  }

  ghost predicate Differ(field: Text, l: Val, r: Val, path: seq<Step>) {
    SeeBoth(field, l, r, path).0 != SeeBoth(field, l, r, path).1
  }

  lemma {:induction false} FindEqual(a: seq<Entry>, r: Val, step: Step)
    requires r.Rec? && step.Key?
    requires forall i | 0 <= i < |a| ::
        a[i].key in Keys(r.members) && DeepEqual(a[i].value, Find(r.members, a[i].key))
    ensures step.key in Keys(a) ==> DeepEqual(Find(a, step.key), Find(r.members, step.key))
    ensures step.key in Keys(a) ==> step.key in Keys(r.members)
  {
    if a != [] && a[0].key != step.key {
      FindEqual(a[1..], r, step);
    }
  }

  ghost predicate DistinctKeys(ks: seq<Text>) {
    forall i, j | 0 <= i < j < |ks| :: ks[i] != ks[j]
  }

  /** A decoded value: no key twice in one record. */
  ghost predicate WellFormed(v: Val)
    decreases v
  {
    match v
    case Arr(items) => forall i | 0 <= i < |items| :: WellFormed(items[i])
    case Rec(ms) => DistinctKeys(Keys(ms)) && forall i | 0 <= i < |ms| :: WellFormed(ms[i].value)
    case _ => true
  }

  lemma {:induction false} KeysLength(ms: seq<Entry>)
    ensures |Keys(ms)| == |ms|
    ensures forall i | 0 <= i < |ms| :: Keys(ms)[i] == ms[i].key
  {
    if ms != [] {
      KeysLength(ms[1..]);
    }
  }

  lemma {:induction false} FindWellFormed(ms: seq<Entry>, k: Text)
    requires forall i | 0 <= i < |ms| :: WellFormed(ms[i].value)
    ensures WellFormed(Find(ms, k))
  {
    if ms != [] && ms[0].key != k {
      FindWellFormed(ms[1..], k);
    }
  }

  lemma ChildWellFormed(v: Val, step: Step)
    requires WellFormed(v)
    ensures WellFormed(Child(v, step))
  {
    if step.Key? && v.Rec? {
      FindWellFormed(v.members, step.key);
    }
  }

  lemma PairedWellFormed(field: Text, l: Val, r: Val)
    requires WellFormed(l) && WellFormed(r)
    ensures var p := Paired(field, l, r); WellFormed(p.0) && WellFormed(p.1)
  {
  }

  function KeySet(ks: seq<Text>): set<Text> {
    set k | k in ks
  }

  lemma {:induction false} KeySetSize(ks: seq<Text>)
    requires DistinctKeys(ks)
    ensures |KeySet(ks)| == |ks|
  {
    if ks != [] {
      KeySetSize(ks[1..]);
      assert ks == [ks[0]] + ks[1..];
      assert KeySet(ks) == {ks[0]} + KeySet(ks[1..]);
    }
  }

  lemma SubsetFull(a: set<Text>, b: set<Text>)
    requires a <= b && |a| == |b|
    ensures a == b
  {
    assert |b - a| == |b| - |a|;
    assert b == a + (b - a);
  }

  /** Deep equality of records is equality of their key sets and of what lies under each key. */
  lemma EqualRecords(l: Val, r: Val, k: Text)
    requires l.Rec? && DeepEqual(l, r) && WellFormed(l) && WellFormed(r)
    ensures k in Keys(l.members) <==> k in Keys(r.members)
    ensures DeepEqual(Find(l.members, k), Find(r.members, k))
  {
    var a, b := Keys(l.members), Keys(r.members);
    KeysLength(l.members);
    KeysLength(r.members);
    forall x | x in a
      ensures x in b
    {
      FindEqual(l.members, r, Key(x));
    }
    KeySetSize(a);
    KeySetSize(b);
    SubsetFull(KeySet(a), KeySet(b));
    assert k in a <==> k in KeySet(a);
    assert k in b <==> k in KeySet(b);
    if k in a {
      FindEqual(l.members, r, Key(k));
    } else {
      FindNone(l.members, k);
      FindNone(r.members, k);
    }
  }

  lemma EqualChildren(l: Val, r: Val, step: Step)
    requires DeepEqual(l, r) && WellFormed(l) && WellFormed(r)
    ensures DeepEqual(Child(l, step), Child(r, step)) && KindOf(l) == KindOf(r)
  {
    if l.Rec? && step.Key? {
      EqualRecords(l, r, step.key);
    }
  }

  lemma EqualPaired(field: Text, l: Val, r: Val)
    requires DeepEqual(l, r) && WellFormed(l) && WellFormed(r)
    ensures var p := Paired(field, l, r); DeepEqual(p.0, p.1)
  {
    if Strings(l) && Strings(r) {
      assert forall i | 0 <= i < |l.items| :: l.items[i] == r.items[i];
      assert l.items == r.items;
      EqualSelf(Sorted(l));
    }
  }

  lemma EqualSelf(v: Val)
    requires Strings(v)
    ensures DeepEqual(v, v)
  {
  }

  /** Deeply equal values show the same on every path. */
  lemma {:induction false} EqualShows(field: Text, l: Val, r: Val, path: seq<Step>)
    requires DeepEqual(l, r) && WellFormed(l) && WellFormed(r)
    ensures !Differ(field, l, r, path)
    decreases |path|
  {
    EqualPaired(field, l, r);
    PairedWellFormed(field, l, r);
    var (a, b) := Paired(field, l, r);
    if path == [] {
      EqualChildren(a, b, Item(0));
    } else {
      EqualChildren(a, b, path[0]);
      ChildWellFormed(a, path[0]);
      ChildWellFormed(b, path[0]);
      EqualShows(Sub(field, path[0]), Child(a, path[0]), Child(b, path[0]), path[1..]);
    }
  }

  /** After sorting, a pair that is deeply equal shows the same on every path too. */
  lemma PairedEqualShows(field: Text, l: Val, r: Val, path: seq<Step>)
    requires WellFormed(l) && WellFormed(r)
    requires var p := Paired(field, l, r); DeepEqual(p.0, p.1)
    ensures !Differ(field, l, r, path)
  {
    PairedWellFormed(field, l, r);
    var (a, b) := Paired(field, l, r);
    if path == [] {
      EqualChildren(a, b, Item(0));
    } else {
      EqualChildren(a, b, path[0]);
      ChildWellFormed(a, path[0]);
      ChildWellFormed(b, path[0]);
      EqualShows(Sub(field, path[0]), Child(a, path[0]), Child(b, path[0]), path[1..]);
    }
  }

  // ---------------------------------------------------------------------------------------------
  // Reports are differences

  /** The report at place i of a step loop comes from one of its steps. */
  lemma {:induction false} StepReports(field: Text, l: Val, r: Val, i: nat, d: Difference) returns (step: Step)
    requires ((l.Arr? && r.Arr?) || (l.Rec? && r.Rec?)) && i <= |Steps(l, r)|
    requires d in CompareSteps(field, l, r, i)
    ensures step in Steps(l, r) && d in Compare(Sub(field, step), Child(l, step), Child(r, step))
    decreases |Steps(l, r)| - i
  {
    step := Steps(l, r)[i];
    if d !in Compare(Sub(field, step), Child(l, step), Child(r, step)) {
      step := StepReports(field, l, r, i + 1, d);
    }
  }

  lemma {:induction false} StepsReport(field: Text, l: Val, r: Val, i: nat, j: nat, d: Difference)
    requires ((l.Arr? && r.Arr?) || (l.Rec? && r.Rec?)) && i <= j < |Steps(l, r)|
    requires var step := Steps(l, r)[j];
      d in Compare(Sub(field, step), Child(l, step), Child(r, step))
    ensures d in CompareSteps(field, l, r, i)
    decreases j - i
  {
    StepsUnfold(field, l, r, i);
    if i < j {
      StepsReport(field, l, r, i + 1, j, d);
      ReportsMore(Compare(Sub(field, Steps(l, r)[i]), Child(l, Steps(l, r)[i]), Child(r, Steps(l, r)[i])),
                  CompareSteps(field, l, r, i + 1), d);
    } else {
      ReportsMore(Compare(Sub(field, Steps(l, r)[j]), Child(l, Steps(l, r)[j]), Child(r, Steps(l, r)[j])),
                  CompareSteps(field, l, r, i + 1), d);
    }
  }

  lemma StepsUnfold(field: Text, l: Val, r: Val, i: nat)
    requires ((l.Arr? && r.Arr?) || (l.Rec? && r.Rec?)) && i < |Steps(l, r)|
    ensures CompareSteps(field, l, r, i) ==
      Compare(Sub(field, Steps(l, r)[i]), Child(l, Steps(l, r)[i]), Child(r, Steps(l, r)[i])) +
      CompareSteps(field, l, r, i + 1)
  {
  }

  lemma ReportsMore(a: seq<Difference>, b: seq<Difference>, d: Difference)
    ensures d in a + b <==> d in a || d in b
  {
  }

  /** What is neither deeply equal nor both lists nor both records is of two kinds. */
  lemma UnequalKinds(l: Val, r: Val)
    requires !DeepEqual(l, r) && !(l.Arr? && r.Arr?) && !(l.Rec? && r.Rec?)
    ensures KindOf(l) != KindOf(r)
  {
  }

  /** Every report names a place where the two show different things, the ones it carries. */
  lemma {:induction false} ReportIsDifference(field: Text, left: Val, right: Val, d: Difference)
    returns (path: seq<Step>)
    requires d in Compare(field, left, right)
    ensures d.field == FieldAt(field, path) && Differ(field, left, right, path)
    ensures SeeBoth(field, left, right, path) == (KindOf(d.expected), KindOf(d.actual))
    decreases Size(left) + Size(right)
  {
    var (l, r) := Paired(field, left, right);
    if (l.Arr? && r.Arr?) || (l.Rec? && r.Rec?) {
      var step := StepReports(field, l, r, 0, d);
      var i :| 0 <= i < |Steps(l, r)| && Steps(l, r)[i] == step;
      StepsShrink(l, r, i);
      var rest := ReportIsDifference(Sub(field, step), Child(l, step), Child(r, step), d);
      path := [step] + rest;
      assert path[1..] == rest;
    } else {
      UnequalKinds(l, r);
      path := [];
    }
  }

  /** Where the two show different things, the first such place on the path is reported. */
  lemma {:induction false} DifferenceIsReported(field: Text, left: Val, right: Val, path: seq<Step>)
    returns (n: nat, d: Difference)
    requires WellFormed(left) && WellFormed(right) && Differ(field, left, right, path)
    ensures n <= |path| && d in Compare(field, left, right) && d.field == FieldAt(field, path[..n])
    decreases |path|
  {
    var (l, r) := Paired(field, left, right);
    PairedWellFormed(field, left, right);
    if DeepEqual(l, r) {
      PairedEqualShows(field, left, right, path);
    }
    if (l.Arr? && r.Arr?) || (l.Rec? && r.Rec?) {
      var step := path[0];
      ChildSize(l, step);
      ChildSize(r, step);
      StepsAre(l, r, step);
      NothingShows(Sub(field, step), path[1..]);
      ChildWellFormed(l, step);
      ChildWellFormed(r, step);
      var m;
      m, d := DifferenceIsReported(Sub(field, step), Child(l, step), Child(r, step), path[1..]);
      n := m + 1;
      assert path[..n][1..] == path[1..][..m];
      var j :| 0 <= j < |Steps(l, r)| && Steps(l, r)[j] == step;
      StepsReport(field, l, r, 0, j, d);
    } else {
      n, d := 0, Difference(field, l, r);
    }
  }

  /** Two absent values show the same everywhere. */
  lemma NothingShows(field: Text, path: seq<Step>)
    ensures !Differ(field, Undefined, Undefined, path)
  {
    EqualShows(field, Undefined, Undefined, path);
  }

  /**
   * The comparison reports nothing exactly when the two values show the same on every path: an absent
   * member reads as undefined, and named string lists compare sorted.
   */
  lemma QuietExactly(field: Text, left: Val, right: Val)
    requires WellFormed(left) && WellFormed(right)
    ensures Compare(field, left, right) == [] <==> forall path :: !Differ(field, left, right, path)
  {
    var ds := Compare(field, left, right);
    if ds == [] {
      forall path
        ensures !Differ(field, left, right, path)
      {
        if Differ(field, left, right, path) {
          var n, d := DifferenceIsReported(field, left, right, path);
        }
      }
    } else {
      var path := ReportIsDifference(field, left, right, ds[0]);
    }
  }

  // ---------------------------------------------------------------------------------------------
  // Each side alone

  /** A value's own canonical reading: its named string lists sorted, whatever the other side holds. */
  function Settled(field: Text, v: Val): Val {
    if Unordered(field) && Strings(v) then Sorted(v) else v
  }

  function See(field: Text, v: Val, path: seq<Step>): Kind
    decreases |path|
  {
    if path == [] then KindOf(v) else See(Sub(field, path[0]), Child(Settled(field, v), path[0]), path[1..])
  }

  // ---------------------------------------------------------------------------------------------
  // Lists that trail off into undefined

  /** Strings first, then at least one undefined entry, and nothing else. */
  ghost predicate TrailsOff(items: seq<Val>) {
    exists n :: 0 <= n < |items| && AllStr(items[..n]) && forall i | n <= i < |items| :: items[i] == Undefined
  }

  /** If the list trails off, its strings are all the same. */
  ghost predicate MildList(items: seq<Val>) {
    TrailsOff(items) ==>
      forall i, j | 0 <= i < |items| && 0 <= j < |items| && items[i].Str? && items[j].Str? :: items[i] == items[j]
  }

  /** No unordered list holds two different strings and then trails off. */
  ghost predicate Mild(field: Text, v: Val)
    decreases v
  {
    match v
    case Arr(items) =>
      && (Unordered(field) ==> MildList(items))
      && forall i | 0 <= i < |items| :: Mild(Sub(field, Item(i)), items[i])
    case Rec(ms) => forall i | 0 <= i < |ms| :: Mild(Sub(field, Key(ms[i].key)), ms[i].value)
    case _ => true
  }

  /** And its unordered string lists are sorted already. */
  ghost predicate Steady(field: Text, v: Val)
    decreases v
  {
    match v
    case Arr(items) =>
      && (Unordered(field) ==> MildList(items) && (Strings(v) ==> SortStr(items) == items))
      && forall i | 0 <= i < |items| :: Steady(Sub(field, Item(i)), items[i])
    case Rec(ms) => forall i | 0 <= i < |ms| :: Steady(Sub(field, Key(ms[i].key)), ms[i].value)
    case _ => true
  }

  lemma {:induction false} FindMild(field: Text, ms: seq<Entry>, k: Text)
    ensures (forall i | 0 <= i < |ms| :: Mild(Sub(field, Key(ms[i].key)), ms[i].value)) ==>
      Mild(Sub(field, Key(k)), Find(ms, k))
    ensures (forall i | 0 <= i < |ms| :: Steady(Sub(field, Key(ms[i].key)), ms[i].value)) ==>
      Steady(Sub(field, Key(k)), Find(ms, k))
  {
    if ms != [] && ms[0].key != k {
      FindMild(field, ms[1..], k);
    }
  }

  lemma ChildMild(field: Text, v: Val, step: Step)
    ensures Mild(field, v) ==> Mild(Sub(field, step), Child(Settled(field, v), step))
    ensures Steady(field, v) ==> Steady(Sub(field, step), Child(Settled(field, v), step))
  {
    if step.Key? && v.Rec? {
      FindMild(field, v.members, step.key);
    }
  }

  /** Some place right below shows two kinds. */
  ghost predicate LevelDiffers(a: Val, b: Val) {
    exists step :: KindOf(Child(a, step)) != KindOf(Child(b, step))
  }

  lemma LevelAt(a: Val, b: Val, i: nat)
    requires KindOf(Child(a, Item(i))) != KindOf(Child(b, Item(i)))
    ensures LevelDiffers(a, b)
  {
  }

  /** A list that is no string list and does not trail off differs from every string list, in its own place. */
  lemma NotTrailing(items: seq<Val>) returns (i: nat, j: nat)
    requires !AllStr(items) && !TrailsOff(items)
    ensures i < |items| && !items[i].Str?
    ensures items[i] != Undefined || (i < j < |items| && items[j] != Undefined)
  {
    if k :| 0 <= k < |items| && !items[k].Str? && items[k] != Undefined {
      i, j := k, k;
    } else {
      i := FirstUndefined(items);
      assert AllStr(items[..i]);
      j :| i <= j < |items| && items[j] != Undefined;
    }
  }

  lemma {:induction false} FirstUndefined(items: seq<Val>) returns (i: nat)
    requires !AllStr(items) && forall k | 0 <= k < |items| :: items[k].Str? || items[k] == Undefined
    ensures i < |items| && items[i] == Undefined && AllStr(items[..i])
  {
    if items[0] == Undefined {
      i := 0;
    } else {
      var rest := FirstUndefined(items[1..]);
      i := rest + 1;
      assert forall k | 1 <= k < i :: items[..i][k] == items[1..][..rest][k - 1];
    }
  }

  lemma NotTrailingDiffers(l: Val, r: Val)
    requires l.Arr? && !Strings(l) && !TrailsOff(l.items) && Strings(r)
    ensures LevelDiffers(l, r)
  {
    var i, j := NotTrailing(l.items);
    if l.items[i] != Undefined || i < |r.items| {
      LevelAt(l, r, i);
    } else {
      LevelAt(l, r, j);
    }
  }

  /** A list of one string over and over, trailing off, is matched by just the strings themselves. */
  lemma TrailingDecides(l: Val, r: Val)
    requires l.Arr? && TrailsOff(l.items) && MildList(l.items) && Strings(r)
    ensures LevelDiffers(l, r) <==> LevelDiffers(l, Sorted(r))
  {
    var n :| 0 <= n < |l.items| && AllStr(l.items[..n]) && forall i | n <= i < |l.items| :: l.items[i] == Undefined;
    assert forall i | 0 <= i < n :: l.items[..n][i] == l.items[i];
    var sorted := Sorted(r);
    if |r.items| != n {
      var i := if n < |r.items| then n else |r.items|;
      LevelAt(l, r, i);
      LevelAt(l, sorted, i);
    } else {
      SortCounts(r.items);
      SameLevels(l, r, sorted, n);
      SameLevels(l, sorted, r, n);
    }
  }

  lemma SameLevels(l: Val, a: Val, b: Val, n: nat)
    requires l.Arr? && n <= |l.items| && Strings(a) && Strings(b) && |a.items| == |b.items| == n
    requires multiset(a.items) == multiset(b.items)
    requires forall i | 0 <= i < n :: l.items[i].Str?
    requires forall i | n <= i < |l.items| :: l.items[i] == Undefined
    requires forall i, j | 0 <= i < n && 0 <= j < n :: l.items[i] == l.items[j]
    ensures LevelDiffers(l, a) ==> LevelDiffers(l, b)
  {
    if LevelDiffers(l, a) {
      var step :| KindOf(Child(l, step)) != KindOf(Child(a, step));
      assert step.Item? && step.index < n;
      var x := a.items[step.index];
      assert x in multiset(b.items);
      var j :| 0 <= j < n && b.items[j] == x;
      assert l.items[j] == l.items[step.index];
      LevelAt(l, b, j);
    }
  }

  lemma MixedDecides(l: Val, r: Val)
    requires l.Arr? && !Strings(l) && MildList(l.items) && Strings(r)
    ensures LevelDiffers(l, r) <==> LevelDiffers(l, Sorted(r))
  {
    if TrailsOff(l.items) {
      TrailingDecides(l, r);
    } else {
      NotTrailingDiffers(l, r);
      NotTrailingDiffers(l, Sorted(r));
    }
  }

  lemma LevelSwaps(a: Val, b: Val)
    ensures LevelDiffers(a, b) <==> LevelDiffers(b, a)
  {
    if LevelDiffers(a, b) {
      var step :| KindOf(Child(a, step)) != KindOf(Child(b, step));
      assert KindOf(Child(b, step)) != KindOf(Child(a, step));
    }
    if LevelDiffers(b, a) {
      var step :| KindOf(Child(b, step)) != KindOf(Child(a, step));
      assert KindOf(Child(a, step)) != KindOf(Child(b, step));
    }
  }

  /** One of the two is a string list and the other is not. */
  predicate Mixed(field: Text, l: Val, r: Val) {
    Unordered(field) && l.Arr? && r.Arr? && Strings(l) != Strings(r)
  }

  /** What makes one side's reading enough: both sides mild, or one of them steady. */
  ghost predicate Readable(field: Text, l: Val, r: Val) {
    (Mild(field, l) && Mild(field, r)) || Steady(field, l)
  }

  lemma {:induction false} SteadyIsMild(field: Text, v: Val)
    requires Steady(field, v)
    ensures Mild(field, v)
    decreases v
  {
    match v
    case Arr(items) =>
      forall i | 0 <= i < |items|
        ensures Mild(Sub(field, Item(i)), items[i])
      {
        SteadyIsMild(Sub(field, Item(i)), items[i]);
      }
    case Rec(ms) =>
      forall i | 0 <= i < |ms|
        ensures Mild(Sub(field, Key(ms[i].key)), ms[i].value)
      {
        SteadyIsMild(Sub(field, Key(ms[i].key)), ms[i].value);
      }
    case _ =>
  }

  /** In a mixed pair the kinds right below decide for both ways of looking. */
  lemma MixedLevels(field: Text, l: Val, r: Val)
    requires Mixed(field, l, r) && Readable(field, l, r)
    ensures LevelDiffers(l, r) <==> LevelDiffers(Settled(field, l), Settled(field, r))
  {
    if Strings(r) {
      if Steady(field, l) {
        SteadyIsMild(field, l);
      }
      MixedDecides(l, r);
    } else if Steady(field, l) {
      assert Sorted(l) == l;
    } else {
      MixedDecides(r, l);
      LevelSwaps(l, r);
      LevelSwaps(Sorted(l), r);
    }
  }

  lemma KindsShow(field: Text, l: Val, r: Val, step: Step)
    requires KindOf(Child(l, step)) != KindOf(Child(r, step))
    requires var p := Paired(field, l, r); p == (l, r)
    ensures Differ(field, l, r, [step])
  {
    var none: seq<Step> := [step][1..];
    assert none == [];
    var sub := Paired(Sub(field, step), Child(l, step), Child(r, step));
    assert SeeBoth(Sub(field, step), Child(l, step), Child(r, step), none) == (KindOf(sub.0), KindOf(sub.1));
  }

  lemma KindsSeen(field: Text, v: Val, step: Step)
    ensures See(field, v, [step]) == KindOf(Child(Settled(field, v), step))
  {
    assert [step][1..] == [];
  }

  /** Where one of two lists is a string list, equal kinds right below are equal values. */
  lemma EqualKindsEqual(l: Val, r: Val, step: Step)
    requires l.Arr? && r.Arr? && (Strings(l) || Strings(r)) && !LevelDiffers(l, r)
    ensures Child(l, step) == Child(r, step) && (Child(l, step).Str? || Child(l, step) == Undefined)
  {
    assert KindOf(Child(l, step)) == KindOf(Child(r, step));
  }

  lemma LeafSeen(field: Text, v: Val, path: seq<Step>)
    requires v.Str? || v == Undefined
    ensures See(field, v, path) == if path == [] then KindOf(v) else Missing
    decreases |path|
  {
    if path != [] {
      LeafSeen(Sub(field, path[0]), Undefined, path[1..]);
    }
  }

  /** The pair shows a difference somewhere only if the readings do. */
  lemma {:induction false} ReadingsDiffer(field: Text, l: Val, r: Val, path: seq<Step>) returns (q: seq<Step>)
    requires Readable(field, l, r) && Differ(field, l, r, path)
    ensures See(field, l, q) != See(field, r, q)
    decreases |path|
  {
    if path == [] || KindOf(l) != KindOf(r) {
      q := [];
    } else if Mixed(field, l, r) {
      MixedLevels(field, l, r);
      if LevelDiffers(l, r) {
        var step :| KindOf(Child(Settled(field, l), step)) != KindOf(Child(Settled(field, r), step));
        KindsSeen(field, l, step);
        KindsSeen(field, r, step);
        q := [step];
      } else {
        EqualKindsEqual(l, r, path[0]);
        EqualShows(Sub(field, path[0]), Child(l, path[0]), Child(r, path[0]), path[1..]);
        q := [];
      }
    } else {
      var step := path[0];
      assert Paired(field, l, r) == (Settled(field, l), Settled(field, r));
      ChildMild(field, l, step);
      ChildMild(field, r, step);
      var a, b := Child(Settled(field, l), step), Child(Settled(field, r), step);
      var rest := ReadingsDiffer(Sub(field, step), a, b, path[1..]);
      q := [step] + rest;
      assert q[1..] == rest;
    }
  }

  /** And the readings differ only where the pair shows a difference. */
  lemma {:induction false} PairDiffers(field: Text, l: Val, r: Val, path: seq<Step>) returns (q: seq<Step>)
    requires Readable(field, l, r) && See(field, l, path) != See(field, r, path)
    ensures Differ(field, l, r, q)
    decreases |path|
  {
    if KindOf(l) != KindOf(r) {
      q := [];
    } else if Mixed(field, l, r) {
      MixedLevels(field, l, r);
      if LevelDiffers(l, r) {
        var step :| KindOf(Child(l, step)) != KindOf(Child(r, step));
        KindsShow(field, l, r, step);
        q := [step];
      } else {
        EqualKindsEqual(Settled(field, l), Settled(field, r), path[0]);
        q := [];
      }
    } else {
      var step := path[0];
      assert Paired(field, l, r) == (Settled(field, l), Settled(field, r));
      ChildMild(field, l, step);
      ChildMild(field, r, step);
      var a, b := Child(Settled(field, l), step), Child(Settled(field, r), step);
      var rest := PairDiffers(Sub(field, step), a, b, path[1..]);
      q := [step] + rest;
      assert q[1..] == rest;
    }
  }

  ghost predicate SameReading(field: Text, l: Val, r: Val) {
    forall path :: See(field, l, path) == See(field, r, path)
  }

  /**
   * Silence is equality of two readings, each made from one side alone, wherever both sides are mild, so
   * among mild values it is an equivalence; and for a steady left side, whatever the right side is.
   */
  lemma QuietIsSameReading(field: Text, l: Val, r: Val)
    requires WellFormed(l) && WellFormed(r) && Readable(field, l, r)
    ensures Compare(field, l, r) == [] <==> SameReading(field, l, r)
  {
    QuietExactly(field, l, r);
    if Compare(field, l, r) == [] {
      forall path
        ensures See(field, l, path) == See(field, r, path)
      {
        if See(field, l, path) != See(field, r, path) {
          var q := PairDiffers(field, l, r, path);
        }
      }
    } else {
      var path :| Differ(field, l, r, path);
      var q := ReadingsDiffer(field, l, r, path);
    }
  }

  // ---------------------------------------------------------------------------------------------
  // Where one side's reading is not enough

  ghost predicate ShowAlike(field: Text, l: Val, r: Val) {
    forall path :: !Differ(field, l, r, path)
  }

  /** The two ways of comparing part. */
  ghost predicate Parts(field: Text, l: Val, r: Val) {
    ShowAlike(field, l, r) != SameReading(field, l, r)
  }

  /** Taken as they are, neither sorted. */
  predicate Bare(field: Text, l: Val, r: Val) {
    Paired(field, l, r) == (l, r)
  }

  lemma EqualChildrenAlike(field: Text, l: Val, r: Val)
    requires KindOf(l) == KindOf(r) && Bare(field, l, r) && WellFormed(l) && WellFormed(r)
    requires forall step :: Child(l, step) == Child(r, step)
    ensures ShowAlike(field, l, r)
  {
    forall path
      ensures !Differ(field, l, r, path)
    {
      if path != [] {
        ChildWellFormed(l, path[0]);
        EqualAll(Child(l, path[0]));
        EqualShows(Sub(field, path[0]), Child(l, path[0]), Child(r, path[0]), path[1..]);
      }
    }
  }

  lemma {:induction false} EqualAll(v: Val)
    requires WellFormed(v)
    ensures DeepEqual(v, v)
    decreases v
  {
    match v
    case Arr(items) =>
      forall i | 0 <= i < |items|
        ensures DeepEqual(items[i], items[i])
      {
        EqualAll(items[i]);
      }
    case Rec(ms) =>
      KeysLength(ms);
      forall i | 0 <= i < |ms|
        ensures ms[i].key in Keys(ms) && DeepEqual(ms[i].value, Find(ms, ms[i].key))
      {
        EqualAll(ms[i].value);
        assert Keys(ms)[i] == ms[i].key;
        FindAt(ms, i);
      }
    case _ =>
  }

  lemma {:induction false} FindAt(ms: seq<Entry>, i: nat)
    requires DistinctKeys(Keys(ms)) && i < |ms|
    ensures Find(ms, ms[i].key) == ms[i].value
  {
    KeysLength(ms);
    if i > 0 {
      assert Keys(ms)[0] != Keys(ms)[i];
      assert Keys(ms)[1..] == Keys(ms[1..]);
      FindAt(ms[1..], i - 1);
    }
  }

  lemma EqualChildrenRead(field: Text, l: Val, r: Val)
    requires KindOf(l) == KindOf(r)
    requires forall step :: Child(Settled(field, l), step) == Child(Settled(field, r), step)
    ensures SameReading(field, l, r)
  {
  }

  /** An unsorted string list reads sorted, but next to itself with an undefined entry it is taken as it is. */
  lemma UnsortedParts(field: Text, l: Val) returns (r: Val)
    requires Unordered(field) && Strings(l) && SortStr(l.items) != l.items
    ensures WellFormed(r) && r.Arr? && Parts(field, l, r)
  {
    r := Arr(l.items + [Undefined]);
    assert r.items[|l.items|] == Undefined;
    EqualChildrenAlike(field, l, r);
    var i :| 0 <= i < |l.items| && SortStr(l.items)[i] != l.items[i];
    KindsSeen(field, l, Item(i));
    KindsSeen(field, r, Item(i));
  }

  /** The strings of a list that trails off, alone: read sorted, taken as they are. */
  lemma CutParts(field: Text, l: Val, n: nat) returns (r: Val)
    requires Unordered(field) && l.Arr? && n < |l.items|
    requires AllStr(l.items[..n]) && SortStr(l.items[..n]) != l.items[..n]
    requires forall i | n <= i < |l.items| :: l.items[i] == Undefined
    ensures WellFormed(r) && r.Arr? && Parts(field, l, r)
  {
    var s := l.items[..n];
    r := Arr(s);
    assert l.items[n] == Undefined && !Strings(l);
    assert forall i | 0 <= i < n :: s[i] == l.items[i];
    EqualChildrenAlike(field, l, r);
    var i :| 0 <= i < n && SortStr(s)[i] != s[i];
    KindsSeen(field, l, Item(i));
    KindsSeen(field, r, Item(i));
  }

  lemma SwapCounts(s: seq<Val>, i: nat, j: nat)
    requires i < |s| && j < |s|
    ensures multiset(s[i := s[j]][j := s[i]]) == multiset(s)
  {
  }

  /** Two strings of a sorted list change places: other strings there, and the same list once sorted. */
  lemma SwapSorts(s: seq<Val>, i: nat, j: nat) returns (t: seq<Val>)
    requires AllStr(s) && SortStr(s) == s && i < |s| && j < |s| && s[i] != s[j]
    ensures AllStr(t) && SortStr(t) == s && |t| == |s| && t[i] == s[j]
  {
    t := s[i := s[j]][j := s[i]];
    SwapCounts(s, i, j);
    assert forall k | 0 <= k < |s| :: t[k].Str?;
    SortsAlike(t, s);
  }

  /** A list that trails off reads like its strings alone. */
  lemma TrailReads(field: Text, l: Val, r: Val, n: nat)
    requires Unordered(field) && l.Arr? && n < |l.items| && r.Arr? && Strings(r)
    requires SortStr(r.items) == l.items[..n]
    requires forall k | n <= k < |l.items| :: l.items[k] == Undefined
    ensures SameReading(field, l, r)
  {
    var s := l.items[..n];
    assert l.items[n] == Undefined;
    assert Settled(field, l) == l && Settled(field, r) == Arr(s);
    forall step
      ensures Child(l, step) == Child(Arr(s), step)
    {
      if step.Item? && step.index < n {
        assert s[step.index] == l.items[step.index];
      }
    }
    EqualChildrenRead(field, l, r);
  }

  /** Its strings, sorted already, in another order: read the same, and shown as different. */
  lemma SwappedParts(field: Text, l: Val, n: nat, i: nat, j: nat) returns (r: Val)
    requires Unordered(field) && l.Arr? && n < |l.items|
    requires AllStr(l.items[..n]) && SortStr(l.items[..n]) == l.items[..n]
    requires forall k | n <= k < |l.items| :: l.items[k] == Undefined
    requires i < n && j < n && l.items[i] != l.items[j]
    ensures WellFormed(r) && r.Arr? && Parts(field, l, r)
  {
    var s := l.items[..n];
    assert s[i] == l.items[i] && s[j] == l.items[j];
    var t := SwapSorts(s, i, j);
    r := Arr(t);
    TrailReads(field, l, r, n);
    assert l.items[n] == Undefined;
    assert Paired(field, l, r) == (l, r);
    assert s[i].Str? && s[j].Str?;
    KindsShow(field, l, r, Item(i));
  }

  lemma ListParts(field: Text, l: Val) returns (r: Val)
    requires Unordered(field) && l.Arr?
    requires !MildList(l.items) || (Strings(l) && SortStr(l.items) != l.items)
    ensures WellFormed(r) && r.Arr? && Parts(field, l, r)
  {
    if Strings(l) && SortStr(l.items) != l.items {
      r := UnsortedParts(field, l);
    } else {
      var n :| 0 <= n < |l.items| && AllStr(l.items[..n]) && forall i | n <= i < |l.items| :: l.items[i] == Undefined;
      var i, j :|
        0 <= i < |l.items| && 0 <= j < |l.items| && l.items[i].Str? && l.items[j].Str? && l.items[i] != l.items[j];
      if SortStr(l.items[..n]) != l.items[..n] {
        r := CutParts(field, l, n);
      } else {
        r := SwappedParts(field, l, n, i, j);
      }
    }
  }

  /** Two values that differ in one child only part where the child does. */
  lemma OneChildParts(field: Text, l: Val, r: Val, step: Step)
    requires KindOf(l) == KindOf(r) && Bare(field, l, r) && Settled(field, l) == l && Settled(field, r) == r
    requires WellFormed(l) && WellFormed(r)
    requires forall other | other != step :: Child(l, other) == Child(r, other)
    requires Parts(Sub(field, step), Child(l, step), Child(r, step))
    ensures Parts(field, l, r)
  {
    var a, b := Child(l, step), Child(r, step);
    var sub := Sub(field, step);
    if ShowAlike(sub, a, b) {
      forall path
        ensures !Differ(field, l, r, path)
      {
        if path != [] && path[0] != step {
          ChildWellFormed(l, path[0]);
          EqualAll(Child(l, path[0]));
          EqualShows(Sub(field, path[0]), Child(l, path[0]), Child(r, path[0]), path[1..]);
        } else if path != [] {
          assert !Differ(sub, a, b, path[1..]);
        }
      }
      var path :| See(sub, a, path) != See(sub, b, path);
      assert ([step] + path)[1..] == path;
      assert See(field, l, [step] + path) != See(field, r, [step] + path);
    } else {
      var path :| Differ(sub, a, b, path);
      assert ([step] + path)[1..] == path;
      assert Differ(field, l, r, [step] + path);
      forall other
        ensures See(field, l, other) == See(field, r, other)
      {
        if other != [] && other[0] == step {
          assert See(sub, a, other[1..]) == See(sub, b, other[1..]);
        }
      }
    }
  }

  lemma {:induction false} KeysUpdate(ms: seq<Entry>, i: nat, v: Val)
    requires i < |ms|
    ensures Keys(ms[i := ms[i].(value := v)]) == Keys(ms)
  {
    KeysLength(ms);
    KeysLength(ms[i := ms[i].(value := v)]);
  }

  lemma {:induction false} FindUpdate(ms: seq<Entry>, i: nat, v: Val, k: Text)
    requires i < |ms| && k != ms[i].key
    ensures Find(ms[i := ms[i].(value := v)], k) == Find(ms, k)
  {
    if i > 0 && ms[0].key != k {
      FindUpdate(ms[1..], i - 1, v, k);
      assert ms[i := ms[i].(value := v)][1..] == ms[1..][i - 1 := ms[i].(value := v)];
    } else if i == 0 {
      assert ms[i := ms[i].(value := v)][1..] == ms[1..];
    }
  }

  lemma ItemParts(field: Text, l: Val, i: nat, b: Val)
    requires WellFormed(l) && l.Arr? && i < |l.items| && !l.items[i].Str? && !b.Str? && WellFormed(b)
    requires Parts(Sub(field, Item(i)), l.items[i], b)
    ensures var r := Arr(l.items[i := b]); WellFormed(r) && Parts(field, l, r)
  {
    var r := Arr(l.items[i := b]);
    assert r.items[i] == b;
    OneChildParts(field, l, r, Item(i));
  }

  lemma MemberParts(field: Text, l: Val, i: nat, b: Val)
    requires WellFormed(l) && l.Rec? && i < |l.members| && WellFormed(b)
    requires Parts(Sub(field, Key(l.members[i].key)), l.members[i].value, b)
    ensures var r := Rec(l.members[i := l.members[i].(value := b)]); WellFormed(r) && Parts(field, l, r)
  {
    var k := l.members[i].key;
    var r := Rec(l.members[i := l.members[i].(value := b)]);
    KeysUpdate(l.members, i, b);
    FindAt(l.members, i);
    FindAt(r.members, i);
    forall other | other != Key(k)
      ensures Child(l, other) == Child(r, other)
    {
      if other.Key? {
        FindUpdate(l.members, i, b, other.key);
      }
    }
    OneChildParts(field, l, r, Key(k));
  }

  /** Beside every value that is not steady there is one with which the two ways of comparing part. */
  lemma {:induction false} UnsteadyParts(field: Text, l: Val) returns (r: Val)
    requires WellFormed(l) && !Steady(field, l)
    ensures WellFormed(r) && KindOf(r) == KindOf(l) && Parts(field, l, r)
    decreases l
  {
    if l.Arr? && Unordered(field) && (!MildList(l.items) || (Strings(l) && SortStr(l.items) != l.items)) {
      r := ListParts(field, l);
    } else if l.Arr? {
      var i :| 0 <= i < |l.items| && !Steady(Sub(field, Item(i)), l.items[i]);
      var b := UnsteadyParts(Sub(field, Item(i)), l.items[i]);
      r := Arr(l.items[i := b]);
      ItemParts(field, l, i, b);
    } else {
      var i :| 0 <= i < |l.members| && !Steady(Sub(field, Key(l.members[i].key)), l.members[i].value);
      var b := UnsteadyParts(Sub(field, Key(l.members[i].key)), l.members[i].value);
      r := Rec(l.members[i := l.members[i].(value := b)]);
      MemberParts(field, l, i, b);
    }
  }

  /**
   * Exactly when one side's reading is enough against every right-hand side: its unordered string lists are
   * sorted already, and no unordered list holds two different strings and trails off into undefined.
   */
  lemma ReadingExactly(field: Text, l: Val)
    requires WellFormed(l)
    ensures Steady(field, l) <==>
      forall r | WellFormed(r) :: Compare(field, l, r) == [] <==> SameReading(field, l, r)
  {
    if Steady(field, l) {
      forall r | WellFormed(r)
        ensures Compare(field, l, r) == [] <==> SameReading(field, l, r)
      {
        QuietIsSameReading(field, l, r);
      }
    } else {
      var r := UnsteadyParts(field, l);
      QuietExactly(field, l, r);
    }
  }

  /** With an undefined entry it is not: A B is B A, and B A is B A undefined, but A B is not. */
  lemma UndefinedBreaksOrder(field: Text, a: Val, b: Val, x: Val, y: Val, z: Val)
    requires Unordered(field) && a == Str([0x41]) && b == Str([0x42])
    requires x == Arr([a, b]) && y == Arr([b, a]) && z == Arr([b, a, Undefined])
    ensures Compare(field, x, y) == [] && Compare(field, y, z) == [] && Compare(field, x, z) != []
  {
    SwappedAlike(field, a, b, x, y);
    assert z.items[2] == Undefined && !Strings(z);
    forall path
      ensures !Differ(field, y, z, path)
    {
      if path != [] {
        var step := path[0];
        assert Child(y, step) == Child(z, step);
        EqualShows(Sub(field, step), Child(y, step), Child(z, step), path[1..]);
      }
    }
    QuietExactly(field, y, z);
    KindsShow(field, x, z, Item(0));
    QuietExactly(field, x, z);
  }

  lemma SwappedAlike(field: Text, a: Val, b: Val, x: Val, y: Val)
    requires Unordered(field) && a.Str? && b.Str? && x == Arr([a, b]) && y == Arr([b, a])
    ensures Compare(field, x, y) == []
  {
    assert multiset(x.items) == multiset{a, b} == multiset(y.items);
    SortsAlike(x.items, y.items);
    EqualSelf(Sorted(x));
  }

  // ---------------------------------------------------------------------------------------------
  // The comparison as it runs

  /** The list of differences the nested calls push to. */
  class Report {
    var differences: seq<Difference>

    constructor ()
      ensures differences == []
    {
      differences := [];
    }

    method Add(field: Text, left: Val, right: Val)
      modifies this
      ensures differences == old(differences) + Compare(field, left, right)
      decreases Size(left) + Size(right)
    {
      var (l, r) := Paired(field, left, right);
      if DeepEqual(l, r) {
        return;
      }
      if (l.Arr? && r.Arr?) || (l.Rec? && r.Rec?) {
        var steps := Steps(l, r);
        ghost var all := CompareSteps(field, l, r, 0);
        for i := 0 to |steps|
          invariant differences + CompareSteps(field, l, r, i) == old(differences) + all
        {
          StepsShrink(l, r, i);
          label Before:
          Add(Sub(field, steps[i]), Child(l, steps[i]), Child(r, steps[i]));
          Shift(old@Before(differences), Compare(Sub(field, steps[i]), Child(l, steps[i]), Child(r, steps[i])),
            CompareSteps(field, l, r, i + 1));
        }
        Shift(differences, [], []);
        return;
      }
      differences := differences + [Difference(field, l, r)];
    }
  }

  lemma Shift(a: seq<Difference>, b: seq<Difference>, c: seq<Difference>)
    ensures a + b + c == a + (b + c) && a + [] == a
  {
  }
}
