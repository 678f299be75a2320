/**
 * Canonical answers: the one-shot text `engineAnswerJson`, and the digest that streams the same
 * answer in chunks of 16,384 code units without building the whole text.
 */
module EngineAnswers {
  import opened Basics
  import opened Utf16
  import opened Json

  // ---------------------------------------------------------------------------------------------
  // Key order

  /** `<` on JavaScript strings: code units, shorter prefix first. */
  predicate LessText(a: Text, b: Text) {
    b != [] && (a == [] || a[0] < b[0] || (a[0] == b[0] && LessText(a[1..], b[1..])))
  }

  lemma LessTextTotal(a: Text, b: Text)
    ensures LessText(a, b) || a == b || LessText(b, a)
    ensures !(LessText(a, b) && LessText(b, a))
  {
    if a != [] && b != [] && a[0] == b[0] {
      LessTextTotal(a[1..], b[1..]);
      assert a == [a[0]] + a[1..] && b == [b[0]] + b[1..];
    }
  }

  lemma LessTextTransitive(a: Text, b: Text, c: Text)
    requires LessText(a, b) && LessText(b, c)
    ensures LessText(a, c)
  {
    if a != [] && a[0] == b[0] && b[0] == c[0] {
      LessTextTransitive(a[1..], b[1..], c[1..]);
    }
  }

  ghost predicate DistinctKeys(ms: seq<Member>) {
    forall i, j | 0 <= i < j < |ms| :: ms[i].key != ms[j].key
  }

  ghost predicate SortedKeys(ms: seq<Member>) {
    forall i, j | 0 <= i < j < |ms| :: LessText(ms[i].key, ms[j].key)
  }

  function InsertSorted(m: Member, ms: seq<Member>): (r: seq<Member>)
    ensures multiset(r) == multiset([m]) + multiset(ms)
  {
    if ms == [] then [m]
    else if LessText(ms[0].key, m.key) then
      assert ms == [ms[0]] + ms[1..];
      [ms[0]] + InsertSorted(m, ms[1..])
    else [m] + ms
  }

  /** The entries of an object, sorted by key. */
  function SortByKey(ms: seq<Member>): (r: seq<Member>)
    ensures multiset(r) == multiset(ms)
  {
    if ms == [] then []
    else
      assert ms == [ms[0]] + ms[1..];
      InsertSorted(ms[0], SortByKey(ms[1..]))
  }

  lemma {:induction false} InsertSortedSorts(m: Member, ms: seq<Member>)
    requires SortedKeys(ms) && forall i | 0 <= i < |ms| :: ms[i].key != m.key
    ensures SortedKeys(InsertSorted(m, ms))
  {
    if ms != [] {
      LessTextTotal(ms[0].key, m.key);
      if LessText(ms[0].key, m.key) {
        InsertSortedSorts(m, ms[1..]);
        var r := InsertSorted(m, ms[1..]);
        forall x | x in r ensures LessText(ms[0].key, x.key) {
          assert x in multiset(r);
          if x != m {
            assert x in multiset(ms[1..]);
            var i :| 0 <= i < |ms[1..]| && ms[1..][i] == x;
            assert x == ms[i + 1];
          }
        }
      } else {
        forall i | 0 <= i < |ms| ensures LessText(m.key, ms[i].key) {
          if i > 0 { LessTextTransitive(m.key, ms[0].key, ms[i].key); }
        }
      }
    }
  }

  lemma {:induction false} SortByKeySorts(ms: seq<Member>)
    requires DistinctKeys(ms)
    ensures SortedKeys(SortByKey(ms))
  {
    if ms != [] {
      SortByKeySorts(ms[1..]);
      var r := SortByKey(ms[1..]);
      forall i | 0 <= i < |r| ensures r[i].key != ms[0].key {
        assert r[i] in multiset(r);
        assert r[i] in multiset(ms[1..]);
      }
      InsertSortedSorts(ms[0], r);
    }
  }

  /** The order every canonical object has: index keys by value, then the other keys by code unit. */
  ghost predicate Before(a: Text, b: Text) {
    if IndexKey(a) then !IndexKey(b) || Decimal(a) < Decimal(b) else !IndexKey(b) && LessText(a, b)
  }

  ghost predicate Ordered(ms: seq<Member>) {
    forall i, j | 0 <= i < j < |ms| :: Before(ms[i].key, ms[j].key)
  }

  lemma DecimalBounds(k: Text)
    requires k != [] && DigitCount(k) == |k| && k[0] != '0' as int
    ensures Decimal(k) >= 1 && (|k| > 1 ==> Decimal(k) >= 10)
  {
    var init := k[..|k| - 1];
    if init != [] {
      DigitsPrefix(k, |init|);
      DecimalBounds(init);
    } else {
      assert Decimal(init) == 0;
    }
  }

  lemma DigitsPrefix(k: Text, n: nat)
    requires n <= |k| && DigitCount(k) == |k|
    ensures DigitCount(k[..n]) == n && forall i | 0 <= i < |k| :: Digit(k[i])
  {
  }

  /** Distinct index keys have distinct values: the digits have no leading zero. */
  lemma {:induction false} IndexKeysDiffer(a: Text, b: Text)
    requires a != [] && DigitCount(a) == |a| && (|a| == 1 || a[0] != '0' as int)
    requires b != [] && DigitCount(b) == |b| && (|b| == 1 || b[0] != '0' as int)
    requires Decimal(a) == Decimal(b)
    ensures a == b
    decreases |a|
  {
    var x, y := a[..|a| - 1], b[..|b| - 1];
    DigitsPrefix(a, |x|);
    DigitsPrefix(b, |y|);
    assert a == x + [a[|a| - 1]] && b == y + [b[|b| - 1]];
    if x == [] && y != [] {
      DecimalBounds(b);
    } else if x != [] && y == [] {
      DecimalBounds(a);
    } else if x != [] {
      IndexKeysDiffer(x, y);
    }
  }

  lemma BeforeTotal(a: Text, b: Text)
    requires a != b
    ensures Before(a, b) || Before(b, a)
    ensures !(Before(a, b) && Before(b, a))
  {
    LessTextTotal(a, b);
    if IndexKey(a) && IndexKey(b) && Decimal(a) == Decimal(b) {
      IndexKeysDiffer(a, b);
    }
  }

  lemma BeforeTransitive(a: Text, b: Text, c: Text)
    requires Before(a, b) && Before(b, c)
    ensures Before(a, c)
  {
    if !IndexKey(a) { LessTextTransitive(a, b, c); }
  }

  /** Where `Insert` puts a key that is new and above all others by code unit. */
  lemma InsertStep(head: Text, key: Text)
    requires LessText(head, key)
    ensures if IndexKey(key) && (!IndexKey(head) || Decimal(key) < Decimal(head)) then Before(key, head)
            else Before(head, key)
  {
    LessTextTotal(head, key);
    BeforeTotal(head, key);
  }

  lemma {:induction false} InsertMembers(ms: seq<Member>, m: Member)
    ensures multiset(Insert(ms, m)) == multiset(ms) + multiset([m])
  {
    if ms != [] {
      assert ms == [ms[0]] + ms[1..];
      InsertMembers(ms[1..], m);
    }
  }

  lemma {:induction false} InsertKeepsOrdered(ms: seq<Member>, m: Member)
    requires Ordered(ms) && forall i | 0 <= i < |ms| :: LessText(ms[i].key, m.key)
    ensures Ordered(Insert(ms, m))
  {
    if ms != [] {
      var head := ms[0].key;
      InsertStep(head, m.key);
      if IndexKey(m.key) && (!IndexKey(head) || Decimal(m.key) < Decimal(head)) {
        forall i | 0 < i < |ms| ensures Before(m.key, ms[i].key) {
          BeforeTransitive(m.key, head, ms[i].key);
        }
      } else {
        var r := Insert(ms[1..], m);
        InsertKeepsOrdered(ms[1..], m);
        InsertMembers(ms[1..], m);
        forall i | 0 <= i < |r| ensures Before(head, r[i].key) {
          assert r[i] in multiset(r);
          assert r[i] == m || r[i] in ms[1..];
        }
      }
    }
  }

  lemma {:induction false} BuildOrders(raw: seq<Member>)
    requires SortedKeys(raw)
    ensures Ordered(Build(raw)) && multiset(Build(raw)) == multiset(raw)
  {
    if raw != [] {
      var init, last := raw[..|raw| - 1], raw[|raw| - 1];
      BuildOrders(init);
      assert raw == init + [last];
      var ms := Build(init);
      forall i | 0 <= i < |ms| ensures LessText(ms[i].key, last.key) && ms[i].key != last.key {
        assert ms[i] in multiset(ms);
        assert ms[i] in multiset(init);
        LessTextTotal(ms[i].key, last.key);
      }
      InsertKeepsOrdered(ms, last);
      InsertMembers(ms, last);
    }
  }

  lemma {:induction false} BuildFrom(raw: seq<Member>, m: Member)
    requires m in Build(raw)
    ensures m in raw
  {
    if raw != [] {
      var init, last := raw[..|raw| - 1], raw[|raw| - 1];
      var ms := Build(init);
      if HasKey(ms, last.key) {
        OverwriteFrom(ms, last, m);
      } else {
        InsertMembers(ms, last);
        assert m in multiset(Insert(ms, last));
      }
      if m in ms { BuildFrom(init, m); }
    }
  }

  lemma OverwriteFrom(ms: seq<Member>, last: Member, m: Member)
    requires m in Overwrite(ms, last)
    ensures m == last || m in ms
  {
  }

  /** `Object.fromEntries` of the entries sorted by key. */
  function Reorder(ms: seq<Member>): (r: seq<Member>)
    ensures forall m | m in r :: m in ms
  {
    var sorted := SortByKey(ms);
    assert forall m | m in Build(sorted) :: m in ms by {
      forall m | m in Build(sorted) ensures m in ms {
        BuildFrom(sorted, m);
        assert m in multiset(sorted);
        assert m in multiset(ms);
      }
    }
    Build(sorted)
  }

  lemma ReorderFacts(ms: seq<Member>)
    requires DistinctKeys(ms)
    ensures Ordered(Reorder(ms)) && multiset(Reorder(ms)) == multiset(ms)
  {
    SortByKeySorts(ms);
    BuildOrders(SortByKey(ms));
  }

  // ---------------------------------------------------------------------------------------------
  // The canonical value

  /** A JavaScript answer: distinct keys in every object, finite numbers, `undefined` anywhere. */
  ghost predicate Answer(v: Value) {
    match v
    case Num(token) => NumberToken(token)
    case Arr(items) => forall i | 0 <= i < |items| :: Answer(items[i])
    case Obj(ms) => DistinctKeys(ms) && forall i | 0 <= i < |ms| :: Answer(ms[i].value)
    case _ => true
  }

  /** What the sorting replacer shows `JSON.stringify`, `undefined` dropped or shown as `null`. */
  function Canon(v: Value): (c: Value)
    decreases v, 1, 0
  {
    match v
    case Undefined => Null
    case Arr(items) => Arr(CanonItems(items))
    case Obj(ms) => Obj(CanonMembers(Reorder(ms), v))
    case _ => v
  }

  function CanonItems(items: seq<Value>): (r: seq<Value>)
    ensures |r| == |items| && forall i | 0 <= i < |r| :: r[i] == Canon(items[i])
    decreases items, 0, 0
  {
    if items == [] then [] else [Canon(items[0])] + CanonItems(items[1..])
  }

  function CanonMembers(ms: seq<Member>, ghost parent: Value): (r: seq<Member>)
    requires parent.Obj? && forall m | m in ms :: m in parent.members
    decreases parent, 0, |ms|
  {
    if ms == [] then []
    else if ms[0].value.Undefined? then CanonMembers(ms[1..], parent)
    else
      assert ms[0] in parent.members;
      [Member(ms[0].key, Canon(ms[0].value))] + CanonMembers(ms[1..], parent)
  }

  /** `engineAnswerJson`: no text for `undefined` itself. */
  function AnswerJson(answer: Value): (r: Option<Text>) {
    if answer.Undefined? then None else Some(Print(Canon(answer), Quote))
  }

  lemma {:induction false} CanonMembersFrom(ms: seq<Member>, parent: Value, c: Member)
    requires parent.Obj? && forall m | m in ms :: m in parent.members
    requires c in CanonMembers(ms, parent)
    ensures exists i :: 0 <= i < |ms| && !ms[i].value.Undefined? && c == Member(ms[i].key, Canon(ms[i].value))
  {
    if !ms[0].value.Undefined? && c == Member(ms[0].key, Canon(ms[0].value)) {
    } else {
      CanonMembersFrom(ms[1..], parent, c);
      var i :|
        0 <= i < |ms[1..]| && !ms[1..][i].value.Undefined? && c == Member(ms[1..][i].key, Canon(ms[1..][i].value));
      assert ms[i + 1] == ms[1..][i];
    }
  }

  lemma {:induction false} CanonMembersHas(ms: seq<Member>, parent: Value, i: nat)
    requires parent.Obj? && forall m | m in ms :: m in parent.members
    requires i < |ms| && !ms[i].value.Undefined?
    ensures Member(ms[i].key, Canon(ms[i].value)) in CanonMembers(ms, parent)
  {
    if i > 0 {
      assert ms[1..][i - 1] == ms[i];
      CanonMembersHas(ms[1..], parent, i - 1);
    }
  }

  lemma {:induction false} CanonMembersOrdered(ms: seq<Member>, parent: Value)
    requires parent.Obj? && forall m | m in ms :: m in parent.members
    requires Ordered(ms)
    ensures Ordered(CanonMembers(ms, parent))
  {
    if ms != [] {
      CanonMembersOrdered(ms[1..], parent);
      var r := CanonMembers(ms[1..], parent);
      forall i | 0 <= i < |r| ensures Before(ms[0].key, r[i].key) {
        CanonMembersFrom(ms[1..], parent, r[i]);
        var k :| 0 <= k < |ms[1..]| && r[i] == Member(ms[1..][k].key, Canon(ms[1..][k].value));
        assert ms[1..][k] == ms[k + 1];
      }
    }
  }

  lemma OrderedIsEnumerated(ms: seq<Member>)
    requires Ordered(ms)
    ensures Enumerated(ms)
  {
    forall i, j | 0 <= i < j < |ms|
      ensures ms[i].key != ms[j].key
      ensures IndexKey(ms[j].key) ==> IndexKey(ms[i].key) && Decimal(ms[i].key) < Decimal(ms[j].key)
    {
      assert Before(ms[i].key, ms[j].key);
      LessTextTotal(ms[i].key, ms[j].key);
    }
  }

  /** A canonical answer is plain JSON, so it can be printed and read back. */
  lemma {:induction false} CanonPlain(v: Value)
    requires Answer(v)
    ensures Plain(Canon(v))
    decreases v, 1, 0
  {
    match v
    case Arr(items) => CanonItemsPlain(items);
    case Obj(ms) =>
      ReorderFacts(ms);
      CanonMembersOrdered(Reorder(ms), v);
      OrderedIsEnumerated(CanonMembers(Reorder(ms), v));
      CanonMembersPlain(Reorder(ms), v);
    case _ =>
  }

  lemma {:induction false} CanonItemsPlain(items: seq<Value>)
    requires forall i | 0 <= i < |items| :: Answer(items[i])
    ensures PlainItems(CanonItems(items))
    decreases items, 0, 0
  {
    if items != [] {
      CanonPlain(items[0]);
      CanonItemsPlain(items[1..]);
      assert CanonItems(items)[1..] == CanonItems(items[1..]);
    }
  }

  lemma {:induction false} CanonMembersPlain(ms: seq<Member>, parent: Value)
    requires Answer(parent) && parent.Obj? && forall m | m in ms :: m in parent.members
    ensures PlainMembers(CanonMembers(ms, parent))
    decreases parent, 0, |ms|
  {
    if ms != [] {
      CanonMembersPlain(ms[1..], parent);
      assert ms[0] in parent.members;
      CanonPlain(ms[0].value);
      var r := CanonMembers(ms, parent);
      if !ms[0].value.Undefined? {
        assert r[1..] == CanonMembers(ms[1..], parent);
      }
    }
  }

  // ---------------------------------------------------------------------------------------------
  // Which answers are the same

  /** `undefined` in an array shows as `null`. */
  function Shown(v: Value): (r: Value) {
    if v.Undefined? then Null else v
  }

  ghost predicate Present(ms: seq<Member>, k: Text) {
    exists i :: 0 <= i < |ms| && ms[i].key == k && !ms[i].value.Undefined?
  }

  /** The same answer: equal leaves and arrays; objects with the same present keys and values, in any order. */
  ghost predicate SameAnswer(v: Value, w: Value)
    decreases v
  {
    match (Shown(v), Shown(w))
    case (Arr(a), Arr(b)) =>
      |a| == |b| && v.Arr? && forall i | 0 <= i < |v.items| :: SameAnswer(v.items[i], b[i])
    case (Obj(a), Obj(b)) =>
      && v.Obj?
      && (forall k: Text :: Present(a, k) <==> Present(b, k))
      && forall i, j | 0 <= i < |v.members| && 0 <= j < |b| ::
        v.members[i].key == b[j].key && !v.members[i].value.Undefined? && !b[j].value.Undefined? ==>
        SameAnswer(v.members[i].value, b[j].value)
    case (x, y) => x == y
  }

  lemma {:induction false} OrderedUnique(a: seq<Member>, b: seq<Member>)
    requires Ordered(a) && Ordered(b)
    requires forall m :: m in a <==> m in b
    ensures a == b
  {
    assert a != [] ==> a[0] in b;
    assert b != [] ==> b[0] in a;
    if a != [] {
      var i :| 0 <= i < |a| && a[i] == b[0];
      var j :| 0 <= j < |b| && b[j] == a[0];
      if i > 0 && j > 0 {
        assert Before(a[0].key, a[i].key) && Before(b[0].key, b[j].key);
        LessTextTotal(a[0].key, b[0].key);
      }
      assert a[0] == b[0];
      forall m ensures m in a[1..] <==> m in b[1..] {
        TailOf(a, m);
        TailOf(b, m);
      }
      OrderedUnique(a[1..], b[1..]);
      assert a == [a[0]] + a[1..] && b == [b[0]] + b[1..];
    }
  }

  lemma TailOf(a: seq<Member>, m: Member)
    requires Ordered(a) && a != []
    ensures m in a[1..] <==> m in a && m != a[0]
  {
    if m in a[1..] {
      var i :| 0 <= i < |a[1..]| && a[1..][i] == m;
      assert Before(a[0].key, a[i + 1].key);
      LessTextTotal(a[0].key, m.key);
    }
  }

  ghost predicate CanonOf(ms: seq<Member>, c: Member) {
    exists i :: 0 <= i < |ms| && !ms[i].value.Undefined? && c == Member(ms[i].key, Canon(ms[i].value))
  }

  /** The members of a canonical object, without their order. */
  lemma CanonObject(ms: seq<Member>, c: Member)
    requires DistinctKeys(ms)
    ensures Ordered(Canon(Obj(ms)).members)
    ensures c in Canon(Obj(ms)).members <==> CanonOf(ms, c)
  {
    var v, r := Obj(ms), Reorder(ms);
    ReorderFacts(ms);
    CanonMembersOrdered(r, v);
    if c in CanonMembers(r, v) {
      CanonMembersFrom(r, v, c);
      var i :| 0 <= i < |r| && !r[i].value.Undefined? && c == Member(r[i].key, Canon(r[i].value));
      assert r[i] in ms;
      var j :| 0 <= j < |ms| && ms[j] == r[i];
    }
    if CanonOf(ms, c) {
      var j :| 0 <= j < |ms| && !ms[j].value.Undefined? && c == Member(ms[j].key, Canon(ms[j].value));
      assert ms[j] in multiset(ms);
      assert ms[j] in multiset(r);
      var i :| 0 <= i < |r| && r[i] == ms[j];
      CanonMembersHas(r, v, i);
    }
  }

  lemma CanonPresent(ms: seq<Member>, i: nat)
    requires DistinctKeys(ms) && i < |ms| && !ms[i].value.Undefined?
    ensures Member(ms[i].key, Canon(ms[i].value)) in Canon(Obj(ms)).members
  {
    CanonObject(ms, Member(ms[i].key, Canon(ms[i].value)));
  }

  lemma SameKeySameMember(ms: seq<Member>, a: Member, b: Member)
    requires Ordered(ms) && a in ms && b in ms && a.key == b.key
    ensures a == b
  {
    OrderedIsEnumerated(ms);
  }

  /** Equal canonical objects have the same present keys, and the members of one key agree. */
  lemma CanonObjectsEqual(a: seq<Member>, b: seq<Member>, k: Text)
    requires DistinctKeys(a) && DistinctKeys(b) && Canon(Obj(a)) == Canon(Obj(b))
    ensures Present(a, k) ==> Present(b, k)
  {
    if Present(a, k) {
      var i :| 0 <= i < |a| && a[i].key == k && !a[i].value.Undefined?;
      CanonPresent(a, i);
      CanonObject(b, Member(k, Canon(a[i].value)));
    }
  }

  /** Same canonical value exactly when the answers are the same. */
  lemma {:induction false} CanonSame(v: Value, w: Value)
    requires Answer(v) && Answer(w)
    ensures Canon(v) == Canon(w) <==> SameAnswer(v, w)
    decreases v
  {
    match (Shown(v), Shown(w))
    case (Arr(a), Arr(b)) =>
      forall i | 0 <= i < |a| && |a| == |b| ensures Canon(a[i]) == Canon(b[i]) <==> SameAnswer(a[i], b[i]) {
        CanonSame(a[i], b[i]);
      }
      CanonArraysSame(a, b);
    case (Obj(a), Obj(b)) =>
      forall i, j | 0 <= i < |a| && 0 <= j < |b|
        ensures Canon(a[i].value) == Canon(b[j].value) <==> SameAnswer(a[i].value, b[j].value)
      {
        CanonSame(a[i].value, b[j].value);
      }
      CanonObjectsSame(a, b);
    case _ =>
  }

  lemma CanonArraysSame(a: seq<Value>, b: seq<Value>)
    requires |a| == |b| ==> forall i | 0 <= i < |a| :: Canon(a[i]) == Canon(b[i]) <==> SameAnswer(a[i], b[i])
    ensures Canon(Arr(a)) == Canon(Arr(b)) <==> SameAnswer(Arr(a), Arr(b))
  {
    if SameAnswer(Arr(a), Arr(b)) {
      assert CanonItems(a) == CanonItems(b);
    } else if |a| == |b| {
      var i :| 0 <= i < |a| && !SameAnswer(a[i], b[i]);
      assert CanonItems(a)[i] != CanonItems(b)[i];
    }
  }

  lemma CanonObjectsSame(a: seq<Member>, b: seq<Member>)
    requires DistinctKeys(a) && DistinctKeys(b)
    requires forall i, j | 0 <= i < |a| && 0 <= j < |b| ::
      Canon(a[i].value) == Canon(b[j].value) <==> SameAnswer(a[i].value, b[j].value)
    ensures Canon(Obj(a)) == Canon(Obj(b)) <==> SameAnswer(Obj(a), Obj(b))
  {
    if SameAnswer(Obj(a), Obj(b)) {
      SameGivesCanon(a, b);
    }
    if Canon(Obj(a)) == Canon(Obj(b)) {
      CanonPresentSame(a, b);
      forall i, j | 0 <= i < |a| && 0 <= j < |b| &&
                    a[i].key == b[j].key && !a[i].value.Undefined? && !b[j].value.Undefined?
        ensures SameAnswer(a[i].value, b[j].value)
      {
        CanonMembersSame(a, b, i, j);
      }
    }
  }

  lemma CanonPresentSame(a: seq<Member>, b: seq<Member>)
    requires DistinctKeys(a) && DistinctKeys(b) && Canon(Obj(a)) == Canon(Obj(b))
    ensures forall k: Text :: Present(a, k) <==> Present(b, k)
  {
    forall k: Text ensures Present(a, k) <==> Present(b, k) {
      CanonObjectsEqual(a, b, k);
      CanonObjectsEqual(b, a, k);
    }
  }

  lemma CanonMembersSame(a: seq<Member>, b: seq<Member>, i: nat, j: nat)
    requires DistinctKeys(a) && DistinctKeys(b) && Canon(Obj(a)) == Canon(Obj(b))
    requires i < |a| && j < |b| && a[i].key == b[j].key && !a[i].value.Undefined? && !b[j].value.Undefined?
    ensures Canon(a[i].value) == Canon(b[j].value)
  {
    CanonPresent(a, i);
    CanonPresent(b, j);
    CanonObject(a, Member(a[i].key, Canon(a[i].value)));
    SameKeySameMember(Canon(Obj(a)).members, Member(a[i].key, Canon(a[i].value)),
                      Member(b[j].key, Canon(b[j].value)));
  }

  lemma SameGivesCanon(a: seq<Member>, b: seq<Member>)
    requires DistinctKeys(a) && DistinctKeys(b) && SameAnswer(Obj(a), Obj(b))
    requires forall i, j | 0 <= i < |a| && 0 <= j < |b| ::
      Canon(a[i].value) == Canon(b[j].value) <==> SameAnswer(a[i].value, b[j].value)
    ensures Canon(Obj(a)) == Canon(Obj(b))
  {
    forall c ensures c in Canon(Obj(a)).members <==> c in Canon(Obj(b)).members {
      CanonObject(a, c);
      CanonObject(b, c);
      if CanonOf(a, c) {
        var i :| 0 <= i < |a| && !a[i].value.Undefined? && c == Member(a[i].key, Canon(a[i].value));
        assert Present(a, c.key);
        var j :| 0 <= j < |b| && b[j].key == c.key && !b[j].value.Undefined?;
        assert SameAnswer(a[i].value, b[j].value);
      }
      if CanonOf(b, c) {
        var j :| 0 <= j < |b| && !b[j].value.Undefined? && c == Member(b[j].key, Canon(b[j].value));
        assert Present(b, c.key);
        var i :| 0 <= i < |a| && a[i].key == c.key && !a[i].value.Undefined?;
        assert SameAnswer(a[i].value, b[j].value);
      }
    }
    CanonObject(a, Member([], Null));
    CanonObject(b, Member([], Null));
    OrderedUnique(Canon(Obj(a)).members, Canon(Obj(b)).members);
  }
}
