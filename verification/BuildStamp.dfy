/**
 * Skipping builds whose inputs have not changed: what the fingerprint is taken of can be read back, and
 * a skip means that a build for the very same stamp completed with none started since, whatever crashed.
 */
module BuildStamp {
  import opened Utf16
  import opened BlueprintText

  const NUL: Unit := 0

  // ---------------------------------------------------------------------------------------------
  // What is hashed

  /** A path as the walk finds it; a directory has its entries in sorted order. */
  datatype Tree = Absent | File(size: nat, modified: Text) | Directory(entries: seq<(Text, Tree)>)

  /** One record fed to the hash. */
  datatype Item = Value(value: Text) | Missing(path: Text) | Present(path: Text, size: nat, modified: Text)

  const VALUE: string := "value"
  const MISSING: string := "missing"
  const FILE: string := "file"

  /** The fields of a record, each followed by a NUL in the hashed text. */
  function Fields(i: Item): seq<Text> {
    match i
    case Value(v) => [Ascii(VALUE), v]
    case Missing(p) => [Ascii(MISSING), p]
    case Present(p, size, modified) => [Ascii(FILE), p, NatText(size), modified]
  }

  function AllFields(items: seq<Item>): seq<Text> {
    if items == [] then [] else AllFields(items[..|items| - 1]) + Fields(items[|items| - 1])
  }

  function Framed(fields: seq<Text>): Text {
    if fields == [] then [] else fields[0] + ([NUL] + Framed(fields[1..]))
  }

  /** The text the hash is taken of. */
  function Hashed(items: seq<Item>): Text {
    Framed(AllFields(items))
  }

  ghost predicate NulFree(i: Item) {
    match i
    case Value(v) => NUL !in v
    case Missing(p) => NUL !in p
    case Present(p, _, modified) => NUL !in p && NUL !in modified
  }

  ghost predicate AllNulFree(items: seq<Item>) {
    forall i | i in items :: NulFree(i)
  }

  ghost predicate Clean(fields: seq<Text>) {
    forall f | f in fields :: NUL !in f
  }

  /** The first NUL of a framed text ends its first field. */
  lemma HeadEnds(f: Text, a: Text, g: Text, b: Text)
    requires NUL !in f && NUL !in g && f + ([NUL] + a) == g + ([NUL] + b)
    ensures f == g && a == b
  {
    var s, t := f + ([NUL] + a), g + ([NUL] + b);
    assert s[|f|] == NUL && t[|g|] == NUL;
    forall i | 0 <= i < |f|
      ensures s[i] != NUL
    {
      assert s[i] == f[i] && f[i] in f;
    }
    forall i | 0 <= i < |g|
      ensures t[i] != NUL
    {
      assert t[i] == g[i] && g[i] in g;
    }
    assert |f| == |g|;
    assert f == s[..|f|] == t[..|g|] == g;
    assert a == s[|f| + 1..] == t[|g| + 1..] == b;
  }

  lemma {:induction false} FramedOnce(a: seq<Text>, b: seq<Text>)
    requires Clean(a) && Clean(b) && Framed(a) == Framed(b)
    ensures a == b
  {
    if a != [] && b != [] {
      assert a[0] in a && b[0] in b;
      HeadEnds(a[0], Framed(a[1..]), b[0], Framed(b[1..]));
      FramedOnce(a[1..], b[1..]);
      assert a == [a[0]] + a[1..] && b == [b[0]] + b[1..];
    }
  }

  lemma FieldsClean(i: Item)
    requires NulFree(i)
    ensures Clean(Fields(i))
  {
    if i.Present? {
      NatTextReads(i.size);
    }
  }

  lemma {:induction false} AllFieldsClean(items: seq<Item>)
    requires AllNulFree(items)
    ensures Clean(AllFields(items))
  {
    if items != [] {
      AllFieldsClean(items[..|items| - 1]);
      FieldsClean(items[|items| - 1]);
    }
  }

  lemma FieldsSnoc(items: seq<Item>, i: Item)
    ensures AllFields(items + [i]) == AllFields(items) + Fields(i)
  {
    assert (items + [i])[..|items|] == items;
  }

  lemma FieldsRegrouped(a: seq<Text>, b: seq<Text>, c: seq<Text>)
    ensures a + b + c == a + (b + c) && a + [] == a && [] + a == a
  {
  }

  lemma {:induction false} FieldsCons(i: Item, items: seq<Item>)
    ensures AllFields([i] + items) == Fields(i) + AllFields(items)
  {
    if items == [] {
      FieldsSnoc(items, i);
      assert items + [i] == [i] + items;
      FieldsRegrouped(Fields(i), [], []);
    } else {
      var init, last := items[..|items| - 1], items[|items| - 1];
      FieldsCons(i, init);
      FieldsSnoc([i] + init, last);
      assert [i] + init + [last] == [i] + items;
      FieldsRegrouped(Fields(i), AllFields(init), Fields(last));
    }
  }

  lemma TagsDiffer()
    ensures |Ascii(VALUE)| == 5 && |Ascii(MISSING)| == 7 && |Ascii(FILE)| == 4
  {
  }

  /** Records that start alike are alike: the first field says what kind and how many fields. */
  lemma HeadRecord(i: Item, a: seq<Text>, j: Item, b: seq<Text>)
    requires Fields(i) + a == Fields(j) + b
    ensures i == j && a == b
  {
    TagsDiffer();
    var s, t := Fields(i) + a, Fields(j) + b;
    assert s[0] == Fields(i)[0] && t[0] == Fields(j)[0];
    assert |Fields(i)| == |Fields(j)|;
    var n := |Fields(i)|;
    assert Fields(i) == s[..n] == t[..n] == Fields(j);
    assert a == s[n..] == t[n..] == b;
    assert s[1] == Fields(i)[1] && t[1] == Fields(j)[1];
    if i.Present? {
      assert Fields(i)[2] == Fields(j)[2] && Fields(i)[3] == Fields(j)[3];
      NatTextReads(i.size);
      NatTextReads(j.size);
    }
  }

  lemma {:induction false} FieldsOnce(a: seq<Item>, b: seq<Item>)
    requires AllFields(a) == AllFields(b)
    ensures a == b
    decreases |a|
  {
    if a == [] {
      FieldsNotEmpty(b);
    } else if b == [] {
      FieldsNotEmpty(a);
    } else {
      assert a == [a[0]] + a[1..] && b == [b[0]] + b[1..];
      FieldsCons(a[0], a[1..]);
      FieldsCons(b[0], b[1..]);
      HeadRecord(a[0], AllFields(a[1..]), b[0], AllFields(b[1..]));
      FieldsOnce(a[1..], b[1..]);
    }
  }

  lemma FieldsNotEmpty(items: seq<Item>)
    ensures AllFields(items) == [] ==> items == []
  {
  }

  /** For inputs without NUL the hashed text says exactly which records it was made of. */
  lemma HashedOnce(a: seq<Item>, b: seq<Item>)
    requires AllNulFree(a) && AllNulFree(b)
    ensures Hashed(a) == Hashed(b) <==> a == b
  {
    if Hashed(a) == Hashed(b) {
      AllFieldsClean(a);
      AllFieldsClean(b);
      FramedOnce(AllFields(a), AllFields(b));
      FieldsOnce(a, b);
    }
  }

  lemma OneRecord(i: Item)
    ensures AllFields([i]) == Fields(i)
  {
    var none: seq<Item> := [];
    FieldsCons(i, none);
    assert [i] + none == [i];
  }

  lemma TwoRecords(i: Item, j: Item)
    ensures AllFields([i, j]) == Fields(i) + Fields(j)
  {
    OneRecord(j);
    FieldsCons(i, [j]);
    assert [i] + [j] == [i, j];
  }

  lemma Regroup(x: Text, v: Text, y: Text)
    ensures x + [NUL] + v + [NUL] + y + [NUL] == x + ([NUL] + (v + ([NUL] + (y + [NUL]))))
  {
    Assoc(x + [NUL] + v, [NUL], y);
    Assoc(x + [NUL] + v, [NUL] + y, [NUL]);
    Assoc([NUL], y, [NUL]);
    Assoc(x + [NUL], v, [NUL] + (y + [NUL]));
    Assoc(x, [NUL], v + ([NUL] + (y + [NUL])));
  }

  /** With a NUL it does not: one value can spell two. */
  lemma NulConfuses(x: Text, y: Text)
    ensures Hashed([Value(x), Value(y)]) == Hashed([Value(x + [NUL] + Ascii(VALUE) + [NUL] + y)])
  {
    var v := Ascii(VALUE);
    var both := x + [NUL] + v + [NUL] + y;
    TwoRecords(Value(x), Value(y));
    OneRecord(Value(both));
    assert [v, x] + [v, y] == [v, x, v, y];
    FramedFour(v, x, v, y);
    FramedTwo(v, both);
    Regroup(x, v, y);
  }

  lemma FramedTwo(p: Text, q: Text)
    ensures Framed([p, q]) == p + ([NUL] + (q + [NUL]))
  {
    assert [p, q][1..] == [q];
    assert Framed([q]) == q + ([NUL] + []);
  }

  lemma FramedFour(p: Text, q: Text, r: Text, s: Text)
    ensures Framed([p, q, r, s]) == p + ([NUL] + (q + ([NUL] + (r + ([NUL] + (s + [NUL]))))))
  {
    assert [p, q, r, s][1..] == [q, r, s] && [q, r, s][1..] == [r, s];
    FramedTwo(r, s);
  }

  // ---------------------------------------------------------------------------------------------
  // The walk that feeds the hash

  const SLASH: Unit := 0x2F
  const SKIPPED: seq<string> := ["Binaries", "Intermediate", "Saved", "DerivedDataCache", ".vs"]

  predicate OutputDirectory(name: Text) {
    exists i | 0 <= i < |SKIPPED| :: name == Ascii(SKIPPED[i])
  }

  function Join(path: Text, name: Text): Text {
    path + [SLASH] + name
  }

  /** The records of one path. */
  function Walked(path: Text, tree: Tree): seq<Item>
    decreases tree
  {
    match tree
    case Absent => [Missing(path)]
    case File(size, modified) => [Present(path, size, modified)]
    case Directory(entries) => WalkedEntries(path, entries, tree)
  }

  function WalkedEntries(path: Text, entries: seq<(Text, Tree)>, ghost parent: Tree): seq<Item>
    requires parent.Directory? && forall e | e in entries :: e in parent.entries
    decreases parent, |entries|
  {
    if entries == [] then []
    else
      var last := entries[|entries| - 1];
      assert last in entries;
      WalkedEntries(path, entries[..|entries| - 1], parent)
      + if OutputDirectory(last.0) then [] else Walked(Join(path, last.0), last.1)
  }

  function Values(values: seq<Text>): seq<Item> {
    seq(|values|, i requires 0 <= i < |values| => Value(values[i]))
  }

  function Inputs(values: seq<Text>, paths: seq<(Text, Tree)>): seq<Item> {
    Values(values) + WalkedPaths(paths)
  }

  function WalkedPaths(paths: seq<(Text, Tree)>): seq<Item> {
    if paths == [] then []
    else WalkedPaths(paths[..|paths| - 1]) + Walked(paths[|paths| - 1].0, paths[|paths| - 1].1)
  }

  lemma {:induction false} FramedConcat(a: seq<Text>, b: seq<Text>)
    ensures Framed(a + b) == Framed(a) + Framed(b)
  {
    if a == [] {
      assert a + b == b;
      assert Framed(a) + Framed(b) == Framed(b);
    } else {
      FramedConcat(a[1..], b);
      assert (a + b)[1..] == a[1..] + b;
      Assoc([NUL], Framed(a[1..]), Framed(b));
      Assoc(a[0], [NUL] + Framed(a[1..]), Framed(b));
    }
  }

  lemma HashedSnoc(items: seq<Item>, i: Item)
    ensures Hashed(items + [i]) == Hashed(items) + Framed(Fields(i))
  {
    assert (items + [i])[..|items|] == items;
    FramedConcat(AllFields(items), Fields(i));
  }

  /** The hash as the source feeds it, one update after the other. */
  class Fingerprint {
    var fed: Text
    ghost var items: seq<Item>

    ghost predicate Valid()
      reads this
    {
      fed == Hashed(items)
    }

    constructor ()
      ensures Valid() && items == []
    {
      fed, items := [], [];
    }

    method Update(i: Item)
      requires Valid()
      modifies this
      ensures Valid() && items == old(items) + [i]
    {
      HashedSnoc(items, i);
      fed := fed + Framed(Fields(i));
      items := items + [i];
    }

    method Visit(path: Text, tree: Tree)
      requires Valid()
      modifies this
      ensures Valid() && items == old(items) + Walked(path, tree)
      decreases tree, 1, 0
    {
      match tree
      case Absent => Update(Missing(path));
      case File(size, modified) => Update(Present(path, size, modified));
      case Directory(entries) => VisitEntries(path, entries, tree);
    }

    /** The entries of a directory, those of its build outputs left out. */
    method VisitEntries(path: Text, entries: seq<(Text, Tree)>, ghost parent: Tree)
      requires Valid() && parent.Directory? && parent.entries == entries
      modifies this
      ensures Valid() && items == old(items) + WalkedEntries(path, entries, parent)
      decreases parent, 0, 0
    {
      Regrouped(items, [], []);
      for i := 0 to |entries|
        invariant Valid() && items == old(items) + WalkedEntries(path, entries[..i], parent)
      {
        assert entries[..i + 1][..i] == entries[..i] && entries[i] in entries;
        ghost var before := WalkedEntries(path, entries[..i], parent);
        var (name, entry) := entries[i];
        if OutputDirectory(name) {
          Regrouped(old(items), before, []);
        } else {
          Visit(Join(path, name), entry);
          Regrouped(old(items), before, Walked(Join(path, name), entry));
        }
      }
      assert entries[..|entries|] == entries;
    }

    method VisitAll(paths: seq<(Text, Tree)>)
      requires Valid()
      modifies this
      ensures Valid() && items == old(items) + WalkedPaths(paths)
    {
      Regrouped(items, [], []);
      for i := 0 to |paths|
        invariant Valid() && items == old(items) + WalkedPaths(paths[..i])
      {
        assert paths[..i + 1][..i] == paths[..i];
        Visit(paths[i].0, paths[i].1);
        Regrouped(old(items), WalkedPaths(paths[..i]), Walked(paths[i].0, paths[i].1));
      }
      assert paths[..|paths|] == paths;
    }

    method UpdateValues(values: seq<Text>)
      requires Valid() && items == []
      modifies this
      ensures Valid() && items == Values(values)
    {
      for i := 0 to |values|
        invariant Valid() && items == Values(values[..i])
      {
        assert Values(values[..i + 1]) == Values(values[..i]) + [Value(values[i])];
        Update(Value(values[i]));
      }
      assert values[..|values|] == values;
    }
  }

  lemma Regrouped(a: seq<Item>, b: seq<Item>, c: seq<Item>)
    ensures a + b + c == a + (b + c) && a + [] == a
  {
  }

  /** The text of a fingerprint: its values first, then every input. */
  method BuildInputStamp(paths: seq<(Text, Tree)>, values: seq<Text>) returns (fed: Text)
    ensures fed == Hashed(Inputs(values, paths))
  {
    var fingerprint := new Fingerprint();
    fingerprint.UpdateValues(values);
    fingerprint.VisitAll(paths);
    fed := fingerprint.fed;
  }

  // ---------------------------------------------------------------------------------------------
  // When two fingerprints are taken of the same text

  ghost predicate NoValues(items: seq<Item>) {
    forall i | i in items :: !i.Value?
  }

  lemma {:induction false} WalkedNoValues(path: Text, tree: Tree)
    ensures NoValues(Walked(path, tree))
    decreases tree, 1, 0
  {
    if tree.Directory? {
      EntriesNoValues(path, tree.entries, tree);
    }
  }

  lemma {:induction false} EntriesNoValues(path: Text, entries: seq<(Text, Tree)>, parent: Tree)
    requires parent.Directory? && forall e | e in entries :: e in parent.entries
    ensures NoValues(WalkedEntries(path, entries, parent))
    decreases parent, 0, |entries|
  {
    if entries != [] {
      var last := entries[|entries| - 1];
      assert last in entries;
      EntriesNoValues(path, entries[..|entries| - 1], parent);
      WalkedNoValues(Join(path, last.0), last.1);
    }
  }

  lemma {:induction false} PathsNoValues(paths: seq<(Text, Tree)>)
    ensures NoValues(WalkedPaths(paths))
  {
    if paths != [] {
      PathsNoValues(paths[..|paths| - 1]);
      WalkedNoValues(paths[|paths| - 1].0, paths[|paths| - 1].1);
    }
  }

  lemma ValuesOnce(a: seq<Text>, p: seq<Item>, b: seq<Text>, q: seq<Item>)
    requires NoValues(p) && NoValues(q) && Values(a) + p == Values(b) + q
    ensures a == b && p == q
  {
    var s := Values(a) + p;
    var t := Values(b) + q;
    forall i | 0 <= i < |s|
      ensures s[i].Value? <==> i < |a|
      ensures t[i].Value? <==> i < |b|
    {
      assert i >= |a| ==> s[i] == p[i - |a|];
      assert i >= |b| ==> t[i] == q[i - |b|];
    }
    assert |a| == |b| by {
      assert |a| < |s| ==> !s[|a|].Value?;
      assert |b| < |t| ==> !t[|b|].Value?;
      assert |a| > 0 ==> s[|a| - 1].Value?;
      assert |b| > 0 ==> t[|b| - 1].Value?;
    }
    assert forall i | 0 <= i < |a| :: s[i] == Value(a[i]) && t[i] == Value(b[i]);
    assert p == s[|a|..] == t[|b|..] == q;
  }

  /**
   * Two fingerprints are taken of the same text exactly when the values are the same and the walk finds the
   * same paths, sizes and times in the same order: no file can pass for a value, or one path for another.
   */
  lemma SameTextSameInputs(v: seq<Text>, p: seq<(Text, Tree)>, w: seq<Text>, q: seq<(Text, Tree)>)
    requires AllNulFree(Inputs(v, p)) && AllNulFree(Inputs(w, q))
    ensures Hashed(Inputs(v, p)) == Hashed(Inputs(w, q)) <==> v == w && WalkedPaths(p) == WalkedPaths(q)
  {
    HashedOnce(Inputs(v, p), Inputs(w, q));
    PathsNoValues(p);
    PathsNoValues(q);
    if Inputs(v, p) == Inputs(w, q) {
      ValuesOnce(v, WalkedPaths(p), w, WalkedPaths(q));
    }
  }
}
