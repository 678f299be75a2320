/**
 * The constructor's own list of words, drawn values and slots: what the substitution's theorems ask for
 * holds of it, whatever is drawn.
 */
module SubstitutionWords {
  import opened Utf16
  import opened BlueprintText
  import opened CorpusDraws
  import opened Substitution
  import opened SubstitutionStages

  // The word slots, in six parts.

  const SLOTS_A: seq<string> := [
    "Cargo", "Lantern", "Keeper", "bird", "Harbor", "River", "Silver", "Relic", "Amber", "Copper", "North",
    "Southern"]

  const SLOTS_B: seq<string> := [
    "East", "Upper", "Lower", "Alpha", "Open", "Close", "Blue", "The", "Spanish", "quest", "Twin", "Crystal"]

  const SLOTS_C: seq<string> := [
    "Fresh", "Freshly", "Removed", "Untranslated", "Waiting", "Uncertain", "Azure", "Collision", "Hi", "Air",
    "Sail", "Alder"]

  const SLOTS_D: seq<string> := [
    "Fabled", "Brass", "Crimson", "Use", "Safe", "Budget", "abcdef", "Compact", "Boundary", "Edge", "Metadata",
    "Loot"]

  const SLOTS_E: seq<string> := [
    "Gathered", "Final", "near", "Old", "Target", "Term", "Renamed", "Silent", "Editor", "Shared", "Duplicate",
    "Conflict"]

  const SLOTS_F: seq<string> := [
    "Manifest", "Blueprint", "Graph", "Widget", "Golden", "Indigo", "Incremental"]

  const WORD_SLOTS: seq<string> := SLOTS_A + SLOTS_B + SLOTS_C + SLOTS_D + SLOTS_E + SLOTS_F

  /** The argument and tag slots, each with its fixed width. */
  const FIXED: seq<(string, nat)> := [
    ("Count", 5), ("Name", 4), ("Nom", 3), ("Item", 4), ("Objet", 5), ("Slots", 5), ("Extra", 5), ("Em", 2),
    ("Bold", 4), ("Italic", 6), ("Strong", 6), ("Glow", 4), ("bannedword", 10), ("obsolete", 8)]

  const STRONG: string := "strong"
  const FIRST_NUMBER: string := "12345"
  const SECOND_NUMBER: string := "45678"
  const BANGS: string := "!!!"
  const THREE_COLOURS: Text := [0x8D64, 0x9752, 0x7DD1]
  const LONG_S: string := "sbcdefghijklmnop"
  const LONG_T: string := "tbcdefghijklmnop"
  const ONE: string := "one"
  const TWO: string := "two"

  /** Two words with a given space between them. */
  function Spaced(space: Unit): Text {
    Ascii(ONE) + [space] + Ascii(TWO)
  }

  const NO_BREAK: Unit := 0xA0
  const IDEOGRAPHIC: Unit := 0x3000

  function AllAscii(ws: seq<string>): (r: seq<Text>)
    ensures |r| == |ws| && forall i | 0 <= i < |ws| :: r[i] == Ascii(ws[i])
  {
    seq(|ws|, i requires 0 <= i < |ws| => Ascii(ws[i]))
  }

  function Names(fixed: seq<(string, nat)>): (r: seq<string>)
    ensures |r| == |fixed| && forall i | 0 <= i < |fixed| :: r[i] == fixed[i].0
  {
    seq(|fixed|, i requires 0 <= i < |fixed| => fixed[i].0)
  }

  /** The words put in front of the list at the end, and those pushed behind the slots. */
  function Front(): (r: seq<Text>)
    ensures |r| == 4
  {
    [Spaced(NO_BREAK), Spaced(IDEOGRAPHIC), Ascii(LONG_S), Ascii(LONG_T)]
  }

  function Back(): (r: seq<Text>)
    ensures |r| == 5
  {
    [Ascii(STRONG), Ascii(FIRST_NUMBER), Ascii(SECOND_NUMBER), Ascii(BANGS), THREE_COLOURS]
  }

  /** All words in the order of their slots. */
  function Words(): (r: seq<Text>)
    ensures |r| == 4 + |WORD_SLOTS| + |FIXED| + 5
  {
    Front() + AllAscii(WORD_SLOTS) + AllAscii(Names(FIXED)) + Back()
  }

  const SLOTS: nat := 90

  // ---------------------------------------------------------------------------------------------
  // The words

  /** Safe in every list of at most a hundred slots: without NUL, and with a unit that is no digit or too long. */
  ghost predicate Safe(w: Text) {
    NulFree(w) && |w| > 1 && (!Digit(w[0]) || |w| > 2)
  }

  lemma SafeClear(w: Text, n: nat)
    requires Safe(w) && n <= 100
    ensures Clear(w, n)
  {
    if Digit(w[0]) {
      NumberClear(w, n);
    } else {
      NonDigitClear(w, 0, n);
    }
  }

  predicate Named(s: string) {
    |s| > 1 && !('0' <= s[0] <= '9') && forall i | 0 <= i < |s| :: '\0' < s[i] < 128 as char
  }

  lemma NamedSafe(s: string)
    requires Named(s)
    ensures Safe(Ascii(s)) && |Ascii(s)| == |s|
  {
    assert forall i | 0 <= i < |s| :: Ascii(s)[i] == s[i] as int != 0;
  }

  predicate AllNamed(ws: seq<string>) {
    forall i | 0 <= i < |ws| :: Named(ws[i])
  }

  lemma NamedA(w: string)
    requires w in SLOTS_A
    ensures Named(w)
  {
  }

  lemma NamedB(w: string)
    requires w in SLOTS_B
    ensures Named(w)
  {
  }

  lemma NamedC(w: string)
    requires w in SLOTS_C
    ensures Named(w)
  {
  }

  lemma NamedD(w: string)
    requires w in SLOTS_D
    ensures Named(w)
  {
  }

  lemma NamedE(w: string)
    requires w in SLOTS_E
    ensures Named(w)
  {
  }

  lemma NamedF(w: string)
    requires w in SLOTS_F
    ensures Named(w)
  {
  }

  lemma SlotsNamed()
    ensures AllNamed(WORD_SLOTS) && |WORD_SLOTS| == 67
  {
    forall i | 0 <= i < |WORD_SLOTS|
      ensures Named(WORD_SLOTS[i])
    {
      var w := WORD_SLOTS[i];
      if w in SLOTS_A {
        NamedA(w);
      } else if w in SLOTS_B {
        NamedB(w);
      } else if w in SLOTS_C {
        NamedC(w);
      } else if w in SLOTS_D {
        NamedD(w);
      } else if w in SLOTS_E {
        NamedE(w);
      } else {
        NamedF(w);
      }
    }
  }

  lemma FixedNamed()
    ensures AllNamed(Names(FIXED))
  {
    forall i | 0 <= i < |FIXED|
      ensures Named(Names(FIXED)[i])
    {
      FixedIs(FIXED[i]);
    }
  }

  /** A fixed slot has the width of its word. */
  lemma FixedIs(f: (string, nat))
    requires f in FIXED
    ensures Named(f.0) && |f.0| == f.1
  {
  }

  ghost predicate AllSafe(ws: seq<Text>) {
    forall i | 0 <= i < |ws| :: Safe(ws[i])
  }

  lemma AsciiSafe(ws: seq<string>)
    requires AllNamed(ws)
    ensures AllSafe(AllAscii(ws))
  {
    forall i | 0 <= i < |ws|
      ensures Safe(AllAscii(ws)[i])
    {
      NamedSafe(ws[i]);
    }
  }

  lemma FrontSafe()
    ensures AllSafe(Front())
  {
    NamedSafe(LONG_S);
    NamedSafe(LONG_T);
    NamedSafe(ONE);
    NamedSafe(TWO);
    assert Spaced(NO_BREAK)[0] == Ascii(ONE)[0] && Spaced(IDEOGRAPHIC)[0] == Ascii(ONE)[0];
  }

  lemma BackSafe()
    ensures AllSafe(Back())
  {
    NamedSafe(STRONG);
    NamedSafe(BANGS);
    assert forall i | 0 <= i < 5 :: Ascii(FIRST_NUMBER)[i] == FIRST_NUMBER[i] as int;
    assert forall i | 0 <= i < 5 :: Ascii(SECOND_NUMBER)[i] == SECOND_NUMBER[i] as int;
    assert NulFree(THREE_COLOURS);
  }

  lemma SafeJoins(a: seq<Text>, b: seq<Text>)
    requires AllSafe(a) && AllSafe(b)
    ensures AllSafe(a + b)
  {
  }

  /** The source's own words meet what the substitution's theorems ask for. */
  lemma WordsSafe()
    ensures AllSafe(Words()) && |Words()| == SLOTS && AllClear(Words(), SLOTS)
  {
    SlotsNamed();
    FixedNamed();
    FrontSafe();
    BackSafe();
    AsciiSafe(WORD_SLOTS);
    AsciiSafe(Names(FIXED));
    SafeJoins(Front(), AllAscii(WORD_SLOTS));
    SafeJoins(Front() + AllAscii(WORD_SLOTS), AllAscii(Names(FIXED)));
    SafeJoins(Front() + AllAscii(WORD_SLOTS) + AllAscii(Names(FIXED)), Back());
    SafeAllClear(Words());
  }

  lemma SafeAllClear(ws: seq<Text>)
    requires AllSafe(ws) && |ws| <= 100
    ensures AllClear(ws, |ws|)
  {
    forall w | w in ws
      ensures Clear(w, |ws|)
    {
      var i :| 0 <= i < |ws| && ws[i] == w;
      SafeClear(w, |ws|);
    }
  }

  // ---------------------------------------------------------------------------------------------
  // The values

  predicate Letter(u: Unit) {
    'a' as int <= u <= 'z' as int || 'A' as int <= u <= 'Z' as int
  }

  predicate Letters(t: Text) {
    forall i | 0 <= i < |t| :: Letter(t[i])
  }

  lemma LettersSafe(t: Text)
    requires Letters(t) && |t| > 1
    ensures Safe(t)
  {
  }

  /** The letter of an alphabet position. */
  function LetterAt(n: nat): (u: Unit)
    ensures Letter(u)
  {
    'a' as int + n % 26
  }

  /** A drawn word: two letters of its slot and instance, the rest drawn. */
  method Literal(width: nat, slot: nat, instance: nat, seed: nat, random: Draws) returns (t: Text)
    requires width > 1
    modifies random
    ensures |t| == width && Letters(t) && t[0] == LetterAt(slot + seed) && t[1] == LetterAt(instance)
  {
    t := [LetterAt(slot + seed), LetterAt(instance)];
    for i := 2 to width
      invariant |t| == i && Letters(t) && t[0] == LetterAt(slot + seed) && t[1] == LetterAt(instance)
    {
      var k := random.Integer(0, 25);
      t := t + [LetterAt(k)];
    }
  }

  function Upper(u: Unit): Unit
    requires Letter(u)
  {
    if u >= 'a' as int then u - 32 else u
  }

  function Lower(u: Unit): Unit
    requires Letter(u)
  {
    if u < 'a' as int then u + 32 else u
  }

  function Lowered(t: Text): (r: Text)
    requires Letters(t)
    ensures |r| == |t| && Letters(r)
  {
    seq(|t|, i requires 0 <= i < |t| => Lower(t[i]))
  }

  lemma NumberWidth(n: nat)
    requires 10_000 <= n < 100_000
    ensures |NatText(n)| == 5 && Safe(NatText(n))
  {
    NatTextReads(n);
    FourWide(n / 10);
  }

  lemma FourWide(n: nat)
    requires 1000 <= n < 10_000
    ensures |NatText(n)| == 4
  {
    assert |NatText(n / 1000)| == 1;
    assert |NatText(n / 100)| == 2 by {
      assert n / 100 / 10 == n / 1000;
    }
    assert |NatText(n / 10)| == 3 by {
      assert n / 10 / 10 == n / 100;
    }
  }

  const PUNCTUATION: seq<Unit> := [0x21, 0x3F, 0x23, 0x2E]

  /** Values as wide as their words, and safe. */
  ghost predicate Fitting(words: seq<Text>, values: seq<Text>) {
    |values| == |words| && AllSafe(values) && forall i | 0 <= i < |words| :: |words[i]| == |values[i]|
  }

  lemma FitMore(words: seq<Text>, values: seq<Text>, w: Text, v: Text)
    requires Fitting(words, values) && Safe(v) && |v| == |w|
    ensures Fitting(words + [w], values + [v])
  {
  }

  lemma FitJoin(a: seq<Text>, x: seq<Text>, b: seq<Text>, y: seq<Text>)
    requires Fitting(a, x) && Fitting(b, y)
    ensures Fitting(a + b, x + y)
  {
  }

  /** The word slots, one drawn literal each. */
  method DrawSlots(instance: nat, seed: nat, random: Draws) returns (values: seq<Text>)
    modifies random
    ensures Fitting(AllAscii(WORD_SLOTS), values)
  {
    values := [];
    SlotsNamed();
    ghost var words := AllAscii(WORD_SLOTS);
    for i := 0 to |WORD_SLOTS|
      invariant Fitting(words[..i], values)
    {
      var word := WORD_SLOTS[i];
      assert Named(word);
      var value := Literal(|word|, i, instance, seed, random);
      LettersSafe(value);
      FitMore(words[..i], values, words[i], value);
      TakeSnoc(words, i);
      values := values + [value];
    }
    assert words[..|words|] == words;
  }

  /** The argument and tag slots; their numbers go on from those before. */
  method DrawFixed(instance: nat, seed: nat, random: Draws) returns (values: seq<Text>)
    modifies random
    ensures Fitting(AllAscii(Names(FIXED)), values)
    ensures forall i | 0 <= i < |values| :: Letters(values[i])
  {
    values := [];
    ghost var words := AllAscii(Names(FIXED));
    for i := 0 to |FIXED|
      invariant Fitting(words[..i], values) && forall k | 0 <= k < |values| :: Letters(values[k])
    {
      var (word, width) := FIXED[i];
      FixedIs(FIXED[i]);
      var value := Literal(width, |WORD_SLOTS| + i, instance, seed, random);
      LettersSafe(value);
      FitMore(words[..i], values, words[i], value);
      TakeSnoc(words, i);
      values := values + [value];
    }
    assert words[..|words|] == words;
  }

  const STRONG_SLOT: nat := 10

  /** The slots behind: the lower case of the strong tag, two numbers, three marks, three colours. */
  method MakeBack(strong: Text, instance: nat, seed: nat) returns (values: seq<Text>)
    requires Letters(strong) && |strong| == |STRONG| && instance < 12
    ensures Fitting(Back(), values)
  {
    var one := NatText(10_000 + seed % 800 * 10 + instance);
    var two := NatText(50_000 + seed % 800 * 10 + instance);
    NumberWidth(10_000 + seed % 800 * 10 + instance);
    NumberWidth(50_000 + seed % 800 * 10 + instance);
    var marks := [PUNCTUATION[instance % 4], PUNCTUATION[instance / 4 % 4], PUNCTUATION[seed % 4]];
    var colours: Text := [0x4E00 + instance, 0x5000 + seed % 100, 0x5100 + seed % 100];
    LettersSafe(Lowered(strong));
    values := [Lowered(strong), one, two, marks, colours];
    assert Safe(marks) && Safe(colours);
    assert |Ascii(STRONG)| == 6 && |Ascii(FIRST_NUMBER)| == 5 && |Ascii(SECOND_NUMBER)| == 5 && |Ascii(BANGS)| == 3;
  }

  /** The slots put in front at the end. */
  method DrawFront(instance: nat, seed: nat, random: Draws) returns (values: seq<Text>)
    modifies random
    ensures Fitting(Front(), values)
  {
    var s := Literal(16, 84, instance, seed, random);
    var t := Literal(16, 85, instance, seed, random);
    var a := Literal(3, 80, instance, seed, random);
    var b := Literal(3, 81, instance, seed, random);
    LettersSafe(s);
    LettersSafe(t);
    values := [a + [NO_BREAK] + Ascii(TWO), b + [IDEOGRAPHIC] + Ascii(TWO), s, t];
    SpacedSafe(a, NO_BREAK);
    SpacedSafe(b, IDEOGRAPHIC);
    assert |Ascii(LONG_S)| == 16 && |Ascii(LONG_T)| == 16 && |Ascii(ONE)| == 3;
  }

  lemma SpacedSafe(a: Text, space: Unit)
    requires Letters(a) && |a| == 3 && space != 0
    ensures Safe(a + [space] + Ascii(TWO))
  {
    NamedSafe(TWO);
    var t := a + [space] + Ascii(TWO);
    assert t[0] == a[0];
  }

  /** All values, drawn and made in the order of the source. */
  method DrawValues(instance: nat, seed: nat, random: Draws) returns (values: seq<Text>, swap: bool)
    requires instance < 12
    modifies random
    ensures |Words()| == |values| == SLOTS && SameWidths(Words(), values)
    ensures AllClear(Words(), SLOTS) && AllClear(values, SLOTS)
  {
    var slots := DrawSlots(instance, seed, random);
    var fixed := DrawFixed(instance, seed, random);
    assert FIXED[STRONG_SLOT].0 == "Strong";
    var strong := fixed[STRONG_SLOT];
    FixedIs(FIXED[STRONG_SLOT]);
    var raised := [Upper(strong[0])] + strong[1..];
    LettersSafe(raised);
    fixed := fixed[STRONG_SLOT := raised];
    var back := MakeBack(raised, instance, seed);
    var front := DrawFront(instance, seed, random);
    values := front + slots + fixed + back;
    FitJoin(Front(), front, AllAscii(WORD_SLOTS), slots);
    FitJoin(Front() + AllAscii(WORD_SLOTS), front + slots, AllAscii(Names(FIXED)), fixed);
    FitJoin(Front() + AllAscii(WORD_SLOTS) + AllAscii(Names(FIXED)), front + slots + fixed, Back(), back);
    WordsSafe();
    SafeAllClear(values);
    var k := random.Integer(0, 1);
    swap := k == 1;
  }

  /**
   * With the source's words and any values the constructor can draw: the substitution of a text without NUL
   * is simultaneous exactly when the text has no trap, and then it keeps the length.
   */
  lemma ConstructorSubstitutes(t: Text, values: seq<Text>)
    requires NulFree(t) && |values| == |Words()| && SameWidths(Words(), values) && AllClear(values, SLOTS)
    ensures [] !in Words() && SlotsIn(Slots(t, Words()), 0, SLOTS) && |Words()| == SLOTS
    ensures Protected(t, Words(), values) == Fill(Slots(t, Words()), values) <==> !Trapped(Slots(t, Words()), 0, SLOTS)
    ensures NUL in Protected(t, Words(), values) <==> Trapped(Slots(t, Words()), 0, SLOTS)
    ensures !Trapped(Slots(t, Words()), 0, SLOTS) ==> |Protected(t, Words(), values)| == |t|
  {
    WordsSafe();
    SimultaneousExactly(t, Words(), values);
    if !Trapped(Slots(t, Words()), 0, SLOTS) {
      SubstitutionKeepsLength(t, Words(), values);
    }
  }

  // ---------------------------------------------------------------------------------------------
  // A trap in the source's own words

  lemma {:induction false} SplitAllNothing(m: Marked, w: Text, k: nat)
    requires w != [] && Without(m, w)
    ensures SplitAll(m, w, k) == m
  {
    SplitNothing(m.lit, w, k);
    if m.Cut? {
      SplitAllNothing(m.rest, w, k);
    }
  }

  lemma {:induction false} SplitBehind(a: Text, w: Text, k: nat)
    requires w != [] && w[0] !in a
    ensures Split(a + w, w, k) == Cut(a, k, End([]))
  {
    if a == [] {
      assert a + w == w && w[|w|..] == [];
      TooShort(w, []);
      SplitNothing([], w, k);
    } else {
      assert (a + w)[0] == a[0] && (a + w)[1..] == a[1..] + w;
      SplitBehind(a[1..], w, k);
      assert [a[0]] + a[1..] == a;
    }
  }

  lemma ForeignUnit(w: Text, t: Text, i: nat)
    requires i < |w| && w[i] !in t
    ensures !Occurs(w, t)
  {
    forall j | 0 <= j <= |t|
      ensures !(w <= t[j..])
    {
      if |w| <= |t[j..]| {
        assert t[j..][i] == t[j + i];
      }
    }
  }

  const CARGO: string := "Cargo"
  const LANTERN: string := "Lantern"
  const FOUR: Unit := 0x34

  /** The text `Lantern4Cargo`. */
  function Spoilt(): Text {
    Ascii(LANTERN) + [FOUR] + Ascii(CARGO)
  }

  lemma FirstWords()
    ensures |Words()| == SLOTS && Words()[..4] == Front()
    ensures Words()[4] == Ascii(CARGO) && Words()[5] == Ascii(LANTERN)
  {
    SlotsNamed();
    assert SLOTS_A[0] == CARGO && SLOTS_A[1] == LANTERN;
    assert WORD_SLOTS[0] == SLOTS_A[0] && WORD_SLOTS[1] == SLOTS_A[1];
    var front, rest := Front(), AllAscii(Names(FIXED)) + Back();
    InThePlace(front, AllAscii(WORD_SLOTS), rest, 0);
    InThePlace(front, AllAscii(WORD_SLOTS), rest, 1);
    assert Words() == front + AllAscii(WORD_SLOTS) + rest;
  }

  lemma InThePlace(a: seq<Text>, b: seq<Text>, c: seq<Text>, i: nat)
    requires i < |b|
    ensures (a + b + c)[|a| + i] == b[i] && (a + b + c)[..|a|] == a
  {
  }

  lemma FrontForeign()
    ensures forall i | 0 <= i < 4 :: !Occurs(Front()[i], Spoilt())
  {
    var t := Spoilt();
    assert |t| == 13;
    assert Spaced(NO_BREAK)[3] == NO_BREAK && Spaced(IDEOGRAPHIC)[3] == IDEOGRAPHIC;
    assert forall i | 0 <= i < |t| :: t[i] < 128;
    ForeignUnit(Spaced(NO_BREAK), t, 3);
    ForeignUnit(Spaced(IDEOGRAPHIC), t, 3);
    TooShort(Ascii(LONG_S), t);
    TooShort(Ascii(LONG_T), t);
  }

  /** The literals left after the first six words: nothing, the digit, nothing. */
  function SpoiltSlots(): Marked {
    Cut([], 5, Cut([FOUR], 4, End([])))
  }

  lemma {:induction false} FrontLeaves(k: nat)
    requires k <= 4
    ensures [] !in Words() && |Words()| == SLOTS && Segment(Spoilt(), Words(), k) == End(Spoilt())
  {
    WordsSafe();
    FirstWords();
    if k > 0 {
      FrontLeaves(k - 1);
      FrontForeign();
      assert Words()[k - 1] == Front()[k - 1];
      SplitAllNothing(End(Spoilt()), Words()[k - 1], k - 1);
    }
  }

  lemma CargoFirst()
    ensures SplitAll(End(Spoilt()), Ascii(CARGO), 4) == Cut(Ascii(LANTERN) + [FOUR], 4, End([]))
  {
    var lit := Ascii(LANTERN) + [FOUR];
    assert Ascii(CARGO)[0] == 'C' as int && Ascii(CARGO)[0] !in lit;
    SplitBehind(lit, Ascii(CARGO), 4);
  }

  lemma SplitFirst(w: Text, b: Text, k: nat)
    requires w != [] && |b| < |w|
    ensures Split(w + b, w, k) == Cut([], k, End(b))
  {
    assert (w + b)[|w|..] == b && w <= w + b;
  }

  lemma ThenLantern(m: Marked)
    requires m == Cut(Ascii(LANTERN) + [FOUR], 4, End([]))
    ensures SplitAll(m, Ascii(LANTERN), 5) == SpoiltSlots()
  {
    var lantern := Ascii(LANTERN);
    SplitFirst(lantern, [FOUR], 5);
    var rest := SplitAll(m.rest, lantern, 5);
    assert rest == Split([], lantern, 5) == End([]);
    assert Then(Cut([], 5, End([FOUR])), 4, rest) == Cut([], 5, Then(End([FOUR]), 4, rest));
  }

  lemma {:induction false} RestLeaves(k: nat)
    requires 6 <= k <= SLOTS
    ensures [] !in Words() && |Words()| == SLOTS && Segment(Spoilt(), Words(), k) == SpoiltSlots()
  {
    WordsSafe();
    if k == 6 {
      FrontLeaves(4);
      FirstWords();
      CargoFirst();
      ThenLantern(Cut(Ascii(LANTERN) + [FOUR], 4, End([])));
    } else {
      RestLeaves(k - 1);
      var w := Words()[k - 1];
      assert Safe(w);
      TooShort(w, []);
      TooShort(w, [FOUR]);
      SplitAllNothing(SpoiltSlots(), w, k - 1);
    }
  }

  /**
   * `Lantern4Cargo`: slots 5 and 4 around the text 4. Whatever is drawn, the second pass takes the 4 with
   * the NULs beside it for the marker of slot 4, and NULs stay in the output.
   */
  lemma TrapExample(values: seq<Text>)
    requires |values| == |Words()| && SameWidths(Words(), values) && AllClear(values, SLOTS)
    ensures [] !in Words() && NUL in Protected(Spoilt(), Words(), values)
  {
    WordsSafe();
    RestLeaves(SLOTS);
    SpoiltIsTrapped();
    ConstructorSubstitutes(Spoilt(), values);
  }

  lemma SpoiltIsTrapped()
    ensures Trapped(SpoiltSlots(), 0, SLOTS) && NulFree(Spoilt())
  {
    assert NatText(4) == [FOUR];
    assert TrapAt(SpoiltSlots(), 4);
    assert forall i | 0 <= i < |Spoilt()| :: Spoilt()[i] != NUL;
  }
}
