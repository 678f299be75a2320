/**
 * The constructor's protected substitution: words become numbered markers between NULs, then markers
 * become drawn values. This module holds the first pass: the text as literals and slots.
 */
module Substitution {
  import opened Utf16
  import opened BlueprintText

  const NUL: Unit := 0

  // ---------------------------------------------------------------------------------------------
  // replaceAll

  /** `replaceAll` with a plain string: leftmost matches, without overlap. */
  function ReplaceAll(t: Text, w: Text, v: Text): (r: Text)
    requires w != []
  {
    if |t| < |w| then t
    else if w <= t then v + ReplaceAll(t[|w|..], w, v)
    else [t[0]] + ReplaceAll(t[1..], w, v)
  }

  ghost predicate NulFree(t: Text) {
    NUL !in t
  }

  ghost predicate Occurs(w: Text, t: Text) {
    exists i :: 0 <= i <= |t| && w <= t[i..]
  }

  lemma OccursAt(w: Text, t: Text, i: nat)
    requires i <= |t| && w <= t[i..]
    ensures Occurs(w, t)
  {
  }

  lemma OccursAmid(a: Text, w: Text, b: Text)
    ensures Occurs(w, a + w + b)
  {
    assert (a + w + b)[|a|..] == w + b;
    OccursAt(w, a + w + b, |a|);
  }

  lemma OccursLater(w: Text, t: Text)
    requires t != [] && Occurs(w, t[1..])
    ensures Occurs(w, t)
  {
    var i :| 0 <= i <= |t[1..]| && w <= t[1..][i..];
    assert t[1..][i..] == t[i + 1..];
    OccursAt(w, t, i + 1);
  }

  lemma OccursNow(w: Text, t: Text)
    requires w <= t
    ensures Occurs(w, t)
  {
    assert t[0..] == t;
    OccursAt(w, t, 0);
  }

  /** A word without NUL that starts in a text followed by NUL ends in it. */
  lemma StartsInside(a: Text, b: Text, w: Text)
    requires NulFree(w)
    ensures w <= a + ([NUL] + b) <==> w <= a
  {
    var t := a + ([NUL] + b);
    assert t[|a|] == NUL;
    assert w <= t && |w| <= |a| ==> w == t[..|w|] == a[..|w|];
    if |w| <= |a| {
      assert a[..|w|] == t[..|w|];
    }
  }

  lemma ReplaceStep(t: Text, w: Text, v: Text)
    requires w != [] && t != [] && !(w <= t)
    ensures ReplaceAll(t, w, v) == [t[0]] + ReplaceAll(t[1..], w, v)
  {
    if |t| < |w| {
      assert t == [t[0]] + t[1..];
    }
  }

  lemma ReplaceAfterNul(b: Text, w: Text, v: Text)
    requires w != [] && NulFree(w)
    ensures ReplaceAll([NUL] + b, w, v) == [NUL] + ReplaceAll(b, w, v)
  {
    var t := [NUL] + b;
    assert t[1..] == b;
    assert t[0] == NUL && w[0] in w;
    ReplaceStep(t, w, v);
  }

  lemma DropInside(a: Text, b: Text, n: nat)
    requires n <= |a|
    ensures (a + b)[n..] == a[n..] + b
  {
  }

  lemma ReplaceAt(t: Text, w: Text, v: Text)
    requires w != [] && w <= t
    ensures ReplaceAll(t, w, v) == v + ReplaceAll(t[|w|..], w, v)
  {
  }

  /** A word without NUL never matches across one. */
  lemma {:induction false} ReplaceAround(a: Text, b: Text, w: Text, v: Text)
    requires w != [] && NulFree(w)
    ensures ReplaceAll(a + ([NUL] + b), w, v) == ReplaceAll(a, w, v) + ([NUL] + ReplaceAll(b, w, v))
    decreases |a|
  {
    var tail := [NUL] + b;
    var done := [NUL] + ReplaceAll(b, w, v);
    StartsInside(a, b, w);
    if w <= a {
      DropInside(a, tail, |w|);
      ReplaceAround(a[|w|..], b, w, v);
      ReplaceAt(a + tail, w, v);
      ReplaceAt(a, w, v);
      Assoc(v, ReplaceAll(a[|w|..], w, v), done);
    } else if a == [] {
      ReplaceAfterNul(b, w, v);
      EmptyFirst(tail);
      EmptyFirst(done);
    } else {
      DropInside(a, tail, 1);
      ReplaceAround(a[1..], b, w, v);
      ReplaceStep(a + tail, w, v);
      ReplaceStep(a, w, v);
      Assoc([a[0]], ReplaceAll(a[1..], w, v), done);
    }
  }

  lemma EmptyFirst(t: Text)
    ensures [] + t == t
  {
  }

  lemma {:induction false} ReplaceNothing(t: Text, w: Text, v: Text)
    requires w != [] && !Occurs(w, t)
    ensures ReplaceAll(t, w, v) == t
    decreases |t|
  {
    if t != [] {
      NotNow(w, t);
      NotLater(w, t);
      ReplaceStep(t, w, v);
      ReplaceNothing(t[1..], w, v);
      assert t == [t[0]] + t[1..];
    }
  }

  lemma NotNow(w: Text, t: Text)
    requires !Occurs(w, t)
    ensures !(w <= t)
  {
    if w <= t {
      OccursNow(w, t);
    }
  }

  lemma NotLater(w: Text, t: Text)
    requires t != [] && !Occurs(w, t)
    ensures !Occurs(w, t[1..])
  {
    if Occurs(w, t[1..]) {
      OccursLater(w, t);
    }
  }

  // ---------------------------------------------------------------------------------------------
  // A text as literals and slots

  datatype Marked = End(lit: Text) | Cut(lit: Text, slot: nat, rest: Marked)

  /** The marker of slot k: its number between two NULs. */
  function Marker(k: nat): Text {
    [NUL] + NatText(k) + [NUL]
  }

  /** The text with every slot as its marker. */
  function Show(m: Marked): Text {
    match m
    case End(l) => l
    case Cut(l, k, r) => l + (Marker(k) + Show(r))
  }

  ghost predicate SlotsIn(m: Marked, lo: nat, hi: nat) {
    m.Cut? ==> lo <= m.slot < hi && SlotsIn(m.rest, lo, hi)
  }

  /** The text with every slot as its entry of a table. */
  function Fill(m: Marked, table: seq<Text>): Text
    requires SlotsIn(m, 0, |table|)
  {
    match m
    case End(l) => l
    case Cut(l, k, r) => l + (table[k] + Fill(r, table))
  }

  function Ahead(x: Text, m: Marked): Marked {
    m.(lit := x + m.lit)
  }

  /** What splits a literal at each match of a word. */
  function Split(t: Text, w: Text, k: nat): Marked
    requires w != []
  {
    if |t| < |w| then End(t)
    else if w <= t then Cut([], k, Split(t[|w|..], w, k))
    else Ahead([t[0]], Split(t[1..], w, k))
  }

  function Then(m: Marked, k: nat, after: Marked): Marked {
    match m
    case End(l) => Cut(l, k, after)
    case Cut(l, j, r) => Cut(l, j, Then(r, k, after))
  }

  function SplitAll(m: Marked, w: Text, k: nat): Marked
    requires w != []
  {
    match m
    case End(l) => Split(l, w, k)
    case Cut(l, j, r) => Then(Split(l, w, k), j, SplitAll(r, w, k))
  }

  ghost predicate Plain(m: Marked) {
    NulFree(m.lit) && (m.Cut? ==> Plain(m.rest))
  }

  /** No literal holds the word any more. */
  ghost predicate Without(m: Marked, w: Text) {
    !Occurs(w, m.lit) && (m.Cut? ==> Without(m.rest, w))
  }

  /** A word or value that no slot number can contain. */
  ghost predicate Clear(w: Text, n: nat) {
    w != [] && NulFree(w) && forall k | 0 <= k < n :: !Occurs(w, NatText(k))
  }

  ghost predicate AllClear(ws: seq<Text>, n: nat) {
    forall w | w in ws :: Clear(w, n)
  }

  lemma NatTextNulFree(k: nat)
    ensures NulFree(NatText(k))
  {
    NatTextReads(k);
  }

  // ---------------------------------------------------------------------------------------------
  // First pass: words to markers

  lemma ShowAhead(x: Text, m: Marked)
    ensures Show(Ahead(x, m)) == x + Show(m)
  {
    if m.Cut? {
      Assoc(x, m.lit, Marker(m.slot) + Show(m.rest));
    }
  }

  lemma {:induction false} SplitShows(t: Text, w: Text, k: nat)
    requires w != []
    ensures Show(Split(t, w, k)) == ReplaceAll(t, w, Marker(k))
  {
    if |t| < |w| {
    } else if w <= t {
      SplitShows(t[|w|..], w, k);
      assert [] + (Marker(k) + Show(Split(t[|w|..], w, k))) == Marker(k) + Show(Split(t[|w|..], w, k));
    } else {
      SplitShows(t[1..], w, k);
      ShowAhead([t[0]], Split(t[1..], w, k));
    }
  }

  lemma {:induction false} ThenShows(m: Marked, k: nat, after: Marked)
    ensures Show(Then(m, k, after)) == Show(m) + (Marker(k) + Show(after))
  {
    if m.Cut? {
      ThenShows(m.rest, k, after);
      var tail := Marker(k) + Show(after);
      Assoc(Marker(m.slot), Show(m.rest), tail);
      Assoc(m.lit, Marker(m.slot) + Show(m.rest), tail);
    }
  }

  lemma MarkerSplits(k: nat, x: Text)
    ensures Marker(k) + x == [NUL] + (NatText(k) + ([NUL] + x))
  {
  }

  /** A replacement works on each literal alone: it neither crosses nor changes a marker. */
  lemma {:induction false} SplitAllShows(m: Marked, w: Text, k: nat, n: nat)
    requires Clear(w, n) && SlotsIn(m, 0, n)
    ensures Show(SplitAll(m, w, k)) == ReplaceAll(Show(m), w, Marker(k))
  {
    SplitShows(m.lit, w, k);
    if m.Cut? {
      var v := Marker(k);
      var rest := Show(m.rest);
      SplitAllShows(m.rest, w, k, n);
      ThenShows(Split(m.lit, w, k), m.slot, SplitAll(m.rest, w, k));
      MarkerSplits(m.slot, rest);
      ReplaceAround(m.lit, NatText(m.slot) + ([NUL] + rest), w, v);
      ReplaceAround(NatText(m.slot), rest, w, v);
      ReplaceNothing(NatText(m.slot), w, v);
      MarkerSplits(m.slot, ReplaceAll(rest, w, v));
    }
  }

  lemma FillAhead(x: Text, m: Marked, table: seq<Text>)
    requires SlotsIn(m, 0, |table|)
    ensures Fill(Ahead(x, m), table) == x + Fill(m, table)
  {
    if m.Cut? {
      Assoc(x, m.lit, table[m.slot] + Fill(m.rest, table));
    }
  }

  lemma {:induction false} SplitFills(t: Text, w: Text, k: nat, table: seq<Text>)
    requires w != [] && k < |table| && table[k] == w
    ensures SlotsIn(Split(t, w, k), 0, k + 1) && SlotsIn(Split(t, w, k), 0, |table|)
    ensures Fill(Split(t, w, k), table) == t
  {
    if |t| < |w| {
    } else if w <= t {
      SplitFills(t[|w|..], w, k, table);
      assert [] + (w + t[|w|..]) == t;
    } else {
      SplitFills(t[1..], w, k, table);
      FillAhead([t[0]], Split(t[1..], w, k), table);
      assert t == [t[0]] + t[1..];
    }
  }

  lemma {:induction false} ThenFills(m: Marked, k: nat, after: Marked, hi: nat, table: seq<Text>)
    requires k < hi <= |table| && SlotsIn(m, 0, hi) && SlotsIn(after, 0, hi)
    ensures SlotsIn(m, 0, |table|) && SlotsIn(after, 0, |table|)
    ensures SlotsIn(Then(m, k, after), 0, hi) && SlotsIn(Then(m, k, after), 0, |table|)
    ensures Fill(Then(m, k, after), table) == Fill(m, table) + (table[k] + Fill(after, table))
  {
    SlotsWiden(after, 0, hi, |table|);
    SlotsWiden(m, 0, hi, |table|);
    if m.Cut? {
      ThenFills(m.rest, k, after, hi, table);
      var tail := table[k] + Fill(after, table);
      Assoc(table[m.slot], Fill(m.rest, table), tail);
      Assoc(m.lit, table[m.slot] + Fill(m.rest, table), tail);
    }
  }

  lemma {:induction false} SlotsWiden(m: Marked, lo: nat, hi: nat, n: nat)
    requires SlotsIn(m, lo, hi) && hi <= n
    ensures SlotsIn(m, lo, n)
  {
    if m.Cut? {
      SlotsWiden(m.rest, lo, hi, n);
    }
  }

  /** Marking loses nothing: the words put back give the text from before. */
  lemma {:induction false} SplitAllFills(m: Marked, w: Text, k: nat, table: seq<Text>)
    requires w != [] && k < |table| && table[k] == w && SlotsIn(m, 0, k)
    ensures SlotsIn(m, 0, |table|) && SlotsIn(SplitAll(m, w, k), 0, k + 1)
    ensures SlotsIn(SplitAll(m, w, k), 0, |table|)
    ensures Fill(SplitAll(m, w, k), table) == Fill(m, table)
  {
    SlotsWiden(m, 0, k, |table|);
    SplitFills(m.lit, w, k, table);
    if m.Cut? {
      SplitAllFills(m.rest, w, k, table);
      ThenFills(Split(m.lit, w, k), m.slot, SplitAll(m.rest, w, k), k + 1, table);
    }
  }

  lemma {:induction false} SplitPlain(t: Text, w: Text, k: nat)
    requires w != [] && NulFree(t)
    ensures Plain(Split(t, w, k))
  {
    if |t| < |w| {
    } else if w <= t {
      SplitPlain(t[|w|..], w, k);
    } else {
      SplitPlain(t[1..], w, k);
    }
  }

  lemma {:induction false} ThenPlain(m: Marked, k: nat, after: Marked)
    requires Plain(m) && Plain(after)
    ensures Plain(Then(m, k, after))
  {
    if m.Cut? {
      ThenPlain(m.rest, k, after);
    }
  }

  lemma {:induction false} SplitAllPlain(m: Marked, w: Text, k: nat)
    requires w != [] && Plain(m)
    ensures Plain(SplitAll(m, w, k))
  {
    SplitPlain(m.lit, w, k);
    if m.Cut? {
      SplitAllPlain(m.rest, w, k);
      ThenPlain(Split(m.lit, w, k), m.slot, SplitAll(m.rest, w, k));
    }
  }

  // ---------------------------------------------------------------------------------------------
  // The words are really gone

  /** Every literal a split leaves starts, or goes on, where the word does not match. */
  lemma {:induction false} SplitWithout(t: Text, w: Text, k: nat)
    requires w != []
    ensures Split(t, w, k).lit <= t
    ensures Without(Split(t, w, k), w)
  {
    if |t| < |w| {
      TooShort(w, t);
    } else if w <= t {
      SplitWithout(t[|w|..], w, k);
      TooShort(w, []);
    } else {
      SplitWithout(t[1..], w, k);
      var l := Split(t[1..], w, k).lit;
      assert t == [t[0]] + t[1..] && ([t[0]] + l)[1..] == l;
      PrefixKeeps(w, [t[0]] + l, t);
      OccursSplit(w, [t[0]] + l);
    }
  }

  lemma PrefixKeeps(w: Text, a: Text, t: Text)
    requires a <= t && !(w <= t)
    ensures !(w <= a)
  {
    if |w| <= |a| {
      assert a[..|w|] == t[..|w|];
    }
  }

  lemma TooShort(w: Text, t: Text)
    requires |t| < |w|
    ensures !Occurs(w, t)
  {
    assert forall i | 0 <= i <= |t| :: |t[i..]| < |w|;
  }

  lemma OccursSplit(w: Text, t: Text)
    requires t != [] && !(w <= t) && !Occurs(w, t[1..])
    ensures !Occurs(w, t)
  {
    forall i | 0 <= i <= |t|
      ensures !(w <= t[i..])
    {
      if i == 0 {
        assert t[0..] == t;
      } else {
        assert t[1..][i - 1..] == t[i..];
        NotAt(w, t[1..], i - 1);
      }
    }
  }

  lemma NotAt(w: Text, t: Text, i: nat)
    requires !Occurs(w, t) && i <= |t|
    ensures !(w <= t[i..])
  {
  }

  ghost predicate WithoutAll(m: Marked, ws: seq<Text>) {
    forall w | w in ws :: Without(m, w)
  }

  lemma PieceKeeps(x: Text, a: Text, t: Text)
    requires !Occurs(x, t) && (exists i :: 0 <= i <= |t| && a <= t[i..])
    ensures !Occurs(x, a)
  {
    var i :| 0 <= i <= |t| && a <= t[i..];
    forall j | 0 <= j <= |a|
      ensures !(x <= a[j..])
    {
      NotAt(x, t, i + j);
      assert t[i..][j..] == t[i + j..];
      PrefixKeeps(x, a[j..], t[i + j..]);
    }
  }

  /** Splitting on one word brings no other back: its literals are pieces of the old one. */
  lemma {:induction false} SplitKeepsWithout(t: Text, w: Text, k: nat, x: Text)
    requires w != [] && !Occurs(x, t)
    ensures Split(t, w, k).lit <= t
    ensures Without(Split(t, w, k), x)
  {
    if |t| < |w| {
    } else if w <= t {
      PieceKeeps(x, t[|w|..], t);
      SplitKeepsWithout(t[|w|..], w, k, x);
      assert [] <= t[0..];
      PieceKeeps(x, [], t);
    } else {
      NotLater(x, t);
      SplitKeepsWithout(t[1..], w, k, x);
      var l := [t[0]] + Split(t[1..], w, k).lit;
      assert t == [t[0]] + t[1..];
      assert l <= t[0..];
      PieceKeeps(x, l, t);
    }
  }

  lemma {:induction false} ThenWithout(m: Marked, k: nat, after: Marked, x: Text)
    requires Without(m, x) && Without(after, x)
    ensures Without(Then(m, k, after), x)
  {
    if m.Cut? {
      ThenWithout(m.rest, k, after, x);
    }
  }

  lemma {:induction false} SplitAllWithout(m: Marked, w: Text, k: nat, x: Text)
    requires w != [] && (x == w || Without(m, x))
    ensures Without(SplitAll(m, w, k), x)
  {
    if x == w {
      SplitWithout(m.lit, w, k);
    } else {
      SplitKeepsWithout(m.lit, w, k, x);
    }
    if m.Cut? {
      SplitAllWithout(m.rest, w, k, x);
      ThenWithout(Split(m.lit, w, k), m.slot, SplitAll(m.rest, w, k), x);
    }
  }

  /** The first k words, in order, as slots of a text. */
  function Segment(t: Text, words: seq<Text>, k: nat): Marked
    requires k <= |words| && [] !in words
  {
    if k == 0 then End(t) else SplitAll(Segment(t, words, k - 1), words[k - 1], k - 1)
  }

  /** The first pass over the first k words, as the source's loop runs it. */
  function MarkWords(t: Text, words: seq<Text>, k: nat): Text
    requires k <= |words| && [] !in words
  {
    if k == 0 then t else ReplaceAll(MarkWords(t, words, k - 1), words[k - 1], Marker(k - 1))
  }

  lemma {:induction false} SegmentMeans(t: Text, words: seq<Text>, k: nat)
    requires NulFree(t) && AllClear(words, |words|) && k <= |words|
    ensures var m := Segment(t, words, k);
      && SlotsIn(m, 0, k) && SlotsIn(m, 0, |words|) && Plain(m)
      && Show(m) == MarkWords(t, words, k) && Fill(m, words) == t
      && WithoutAll(m, words[..k])
  {
    if k > 0 {
      SegmentMeans(t, words, k - 1);
      var m := Segment(t, words, k - 1);
      var w := words[k - 1];
      assert Clear(w, |words|);
      SplitAllShows(m, w, k - 1, |words|);
      SplitAllFills(m, w, k - 1, words);
      SplitAllPlain(m, w, k - 1);
      TakeSnoc(words, k - 1);
      forall x | x in words[..k]
        ensures Without(SplitAll(m, w, k - 1), x)
      {
        SplitAllWithout(m, w, k - 1, x);
      }
    }
  }
}
