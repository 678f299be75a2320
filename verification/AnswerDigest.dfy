/** `engineAnswerDigest`: the streamed text, its bytes, and when it is the one-shot text. */
module AnswerDigest {
  import opened Basics
  import opened Utf16
  import opened Json
  import opened Wtf8
  import opened EngineAnswers

  const CHUNK: nat := 16_384

  // ---------------------------------------------------------------------------------------------
  // Chunks of a string

  /** Where the chunk that starts at `offset` ends: one unit later when it would end on a high surrogate. */
  function ChunkEnd(v: Text, offset: nat): (end: nat)
    requires offset < |v|
    ensures offset < end <= |v|
  {
    var end := if offset + CHUNK < |v| then offset + CHUNK else |v|;
    if end < |v| && High(v[end - 1]) then end + 1 else end
  }

  /** The escaped chunks from `offset` on. */
  function ChunkInner(v: Text, offset: nat): (t: Text)
    requires offset <= |v|
    decreases |v| - offset
  {
    if offset == |v| then []
    else QuoteInner(v[offset..ChunkEnd(v, offset)]) + ChunkInner(v, ChunkEnd(v, offset))
  }

  function ChunkedInner(v: Text): (t: Text) {
    ChunkInner(v, 0)
  }

  function ChunkQuote(v: Text): (t: Text) {
    [QUOTE] + ChunkedInner(v) + [QUOTE]
  }

  /** A boundary between the two halves of a surrogate pair. */
  predicate CutsPair(v: Text, end: nat) {
    0 < end < |v| && High(v[end - 1]) && Low(v[end])
  }

  /** How many chunk boundaries from `offset` on cut a pair. */
  function Cuts(v: Text, offset: nat): (n: nat)
    requires offset <= |v|
    decreases |v| - offset
  {
    if offset == |v| then 0
    else
      var end := ChunkEnd(v, offset);
      (if CutsPair(v, end) then 1 else 0) + Cuts(v, end)
  }

  /** Escaping splits with the text everywhere but inside a pair, where it costs ten more units. */
  lemma {:induction false} QuoteInnerConcat(a: Text, b: Text)
    ensures if a != [] && b != [] && High(a[|a| - 1]) && Low(b[0])
            then |QuoteInner(a) + QuoteInner(b)| == |QuoteInner(a + b)| + 10
            else QuoteInner(a) + QuoteInner(b) == QuoteInner(a + b)
  {
    if a == [] {
      assert a + b == b;
    } else if PairAt(a, 0) {
      assert PairAt(a + b, 0) && (a + b)[..2] == a[..2] && (a + b)[2..] == a[2..] + b;
      QuoteInnerConcat(a[2..], b);
      Assoc(a[..2], QuoteInner(a[2..]), QuoteInner(b));
    } else if |a| == 1 && b != [] && High(a[0]) && Low(b[0]) {
      CutPairLength(a, b);
    } else {
      assert !PairAt(a + b, 0) && (a + b)[1..] == a[1..] + b;
      QuoteInnerConcat(a[1..], b);
      Assoc(EscapeUnit(a[0]), QuoteInner(a[1..]), QuoteInner(b));
    }
  }

  lemma CutPairLength(a: Text, b: Text)
    requires |a| == 1 && b != [] && High(a[0]) && Low(b[0])
    ensures |QuoteInner(a)| + |QuoteInner(b)| == |QuoteInner(a + b)| + 10
  {
    assert PairAt(a + b, 0) && (a + b)[2..] == b[1..];
    assert QuoteInner(a[1..]) == [];
    assert |EscapeUnit(a[0])| == 6 && |EscapeUnit(b[0])| == 6;
  }

  lemma QuoteInnerSplit(v: Text, offset: nat, end: nat)
    requires offset < end <= |v|
    ensures var a, b := QuoteInner(v[offset..end]), QuoteInner(v[end..]);
            if CutsPair(v, end) then |a + b| == |QuoteInner(v[offset..])| + 10
            else a + b == QuoteInner(v[offset..])
  {
    assert v[offset..end] + v[end..] == v[offset..];
    QuoteInnerConcat(v[offset..end], v[end..]);
  }

  lemma {:induction false} ChunkInnerLength(v: Text, offset: nat)
    requires offset <= |v|
    ensures |ChunkInner(v, offset)| == |QuoteInner(v[offset..])| + 10 * Cuts(v, offset)
    ensures Cuts(v, offset) == 0 ==> ChunkInner(v, offset) == QuoteInner(v[offset..])
    decreases |v| - offset
  {
    if offset < |v| {
      var end := ChunkEnd(v, offset);
      ChunkInnerLength(v, end);
      QuoteInnerSplit(v, offset, end);
    }
  }

  /** The chunked token is the plain token plus ten units for every cut pair. */
  lemma ChunkQuoteLength(v: Text)
    ensures |ChunkQuote(v)| == |Quote(v)| + 10 * Cuts(v, 0)
    ensures Cuts(v, 0) == 0 ==> ChunkQuote(v) == Quote(v)
  {
    ChunkInnerLength(v, 0);
    assert v[0..] == v;
  }

  lemma {:induction false} StandsChunkInner(v: Text, offset: nat)
    requires offset <= |v|
    ensures Stands(ChunkInner(v, offset), v[offset..])
    decreases |v| - offset
  {
    if offset == |v| {
      StandsEmpty();
    } else {
      var end := ChunkEnd(v, offset);
      StandsQuoteInner(v[offset..end]);
      StandsChunkInner(v, end);
      StandsConcat(QuoteInner(v[offset..end]), v[offset..end], ChunkInner(v, end), v[end..]);
      assert v[offset..end] + v[end..] == v[offset..];
    }
  }

  lemma ChunkQuoteIsFaithful()
    ensures Faithful(ChunkQuote)
  {
    forall v: Text ensures ChunkQuote(v) == [QUOTE] + ChunkedInner(v) + [QUOTE] && Stands(ChunkedInner(v), v) {
      StandsChunkInner(v, 0);
      assert v[0..] == v;
    }
    FaithfulByParts(ChunkQuote, ChunkedInner);
  }

  // ---------------------------------------------------------------------------------------------
  // Cut pairs of a whole answer

  /** Cut pairs over every string and key of a canonical answer. */
  function AllCuts(v: Value): (n: nat) {
    match v
    case Str(s) => Cuts(s, 0)
    case Arr(items) => ItemCuts(items)
    case Obj(ms) => MemberCuts(ms)
    case _ => 0
  }

  function ItemCuts(items: seq<Value>): (n: nat) {
    if items == [] then 0 else AllCuts(items[0]) + ItemCuts(items[1..])
  }

  function MemberCuts(ms: seq<Member>): (n: nat) {
    if ms == [] then 0 else Cuts(ms[0].key, 0) + AllCuts(ms[0].value) + MemberCuts(ms[1..])
  }

  lemma {:induction false} PrintLength(v: Value)
    ensures |Print(v, ChunkQuote)| == |Print(v, Quote)| + 10 * AllCuts(v)
    ensures AllCuts(v) == 0 ==> Print(v, ChunkQuote) == Print(v, Quote)
  {
    match v
    case Str(s) => ChunkQuoteLength(s);
    case Arr(items) => ItemsLength(items);
    case Obj(ms) => MembersLength(ms);
    case _ =>
  }

  lemma {:induction false} ItemsLength(items: seq<Value>)
    ensures |PrintItems(items, ChunkQuote)| == |PrintItems(items, Quote)| + 10 * ItemCuts(items)
    ensures ItemCuts(items) == 0 ==> PrintItems(items, ChunkQuote) == PrintItems(items, Quote)
  {
    if items != [] {
      PrintLength(items[0]);
      ItemsLength(items[1..]);
    }
  }

  lemma {:induction false} MembersLength(ms: seq<Member>)
    ensures |PrintMembers(ms, ChunkQuote)| == |PrintMembers(ms, Quote)| + 10 * MemberCuts(ms)
    ensures MemberCuts(ms) == 0 ==> PrintMembers(ms, ChunkQuote) == PrintMembers(ms, Quote)
  {
    if ms != [] {
      ChunkQuoteLength(ms[0].key);
      PrintLength(ms[0].value);
      MembersLength(ms[1..]);
    }
  }

  // ---------------------------------------------------------------------------------------------
  // The streamed text

  /** Everything the digest feeds to its hash, as one text. */
  function StreamText(answer: Value): (t: Text) {
    Print(Canon(answer), ChunkQuote)
  }

  /**
   * The streamed text is the one-shot text exactly when no chunk boundary cuts a surrogate pair;
   * each cut pair makes it ten units longer.
   */
  lemma StreamMatchesJson(answer: Value)
    requires !answer.Undefined?
    ensures AnswerJson(answer) == Some(StreamText(answer)) <==> AllCuts(Canon(answer)) == 0
    ensures |StreamText(answer)| == |AnswerJson(answer).value| + 10 * AllCuts(Canon(answer))
  {
    PrintLength(Canon(answer));
  }

  /** Cut or not, the streamed text reads back as the canonical answer. */
  lemma StreamReadsBack(answer: Value)
    requires Answer(answer)
    ensures Parse(StreamText(answer)) == Some(Canon(answer))
  {
    CanonPlain(answer);
    ChunkQuoteIsFaithful();
    RoundTrip(Canon(answer), ChunkQuote);
  }

  /** The streamed text, like the one-shot text, separates exactly the different answers. */
  lemma StreamSeparates(a: Value, b: Value)
    requires Answer(a) && Answer(b)
    ensures StreamText(a) == StreamText(b) <==> SameAnswer(a, b)
  {
    CanonSame(a, b);
    StreamReadsBack(a);
    StreamReadsBack(b);
  }

  // ---------------------------------------------------------------------------------------------
  // Well-formed strings

  predicate WellFormed(t: Text) {
    t == [] ||
    (if PairAt(t, 0) then WellFormed(t[2..]) else !High(t[0]) && !Low(t[0]) && WellFormed(t[1..]))
  }

  lemma {:induction false} WellFormedAt(t: Text, i: nat)
    requires WellFormed(t) && i < |t| && High(t[i])
    ensures PairAt(t, i)
  {
    if i > 0 {
      var n := if PairAt(t, 0) then 2 else 1;
      assert i >= n;
      assert t[n..][i - n] == t[i];
      WellFormedAt(t[n..], i - n);
    }
  }

  /** A well-formed string is never cut, so only lone surrogates can make the two texts differ. */
  lemma {:induction false} WellFormedUncut(v: Text, offset: nat)
    requires WellFormed(v) && offset <= |v|
    ensures Cuts(v, offset) == 0
    decreases |v| - offset
  {
    if offset < |v| {
      var end := ChunkEnd(v, offset);
      if offset + CHUNK < |v| && High(v[offset + CHUNK - 1]) {
        WellFormedAt(v, offset + CHUNK - 1);
      }
      WellFormedUncut(v, end);
    }
  }

  /** The only cut there can be: a high surrogate last in a full chunk, and a whole pair right after it. */
  lemma CutShape(v: Text, offset: nat)
    requires offset < |v|
    ensures CutsPair(v, ChunkEnd(v, offset)) <==>
            offset + CHUNK + 1 < |v| && High(v[offset + CHUNK - 1]) && PairAt(v, offset + CHUNK)
  {
  }

  /** The smallest failure: a high surrogate on the boundary with a whole pair after it. */
  lemma CutExample()
    ensures var v := seq(CHUNK - 1, _ => 'x' as int) + [0xD800, 0xD83D, 0xDE00];
            Cuts(v, 0) == 1 && AnswerJson(Str(v)) != Some(StreamText(Str(v)))
  {
    var v := seq(CHUNK - 1, _ => 'x' as int) + [0xD800, 0xD83D, 0xDE00];
    assert v[CHUNK - 1] == 0xD800 && v[CHUNK] == 0xD83D && v[CHUNK + 1] == 0xDE00;
    assert ChunkEnd(v, 0) == CHUNK + 1 && CutsPair(v, CHUNK + 1);
    assert ChunkEnd(v, CHUNK + 1) == |v|;
    assert Cuts(v, |v|) == 0;
    assert Cuts(v, CHUNK + 1) == 0;
    StreamMatchesJson(Str(v));
  }

  // ---------------------------------------------------------------------------------------------
  // Bytes

  /** The UTF-8 bytes Node takes from a string; a lone surrogate becomes U+FFFD. */
  function Utf8(t: Text): (b: seq<Byte>) {
    if t == [] then []
    else EncodePoint(if PairAt(t, 0) || !(High(t[0]) || Low(t[0])) then FirstPoint(t) else 0xFFFD) +
         Utf8(t[FirstWidth(t)..])
  }

  lemma {:induction false} Utf8IsExact(t: Text)
    requires WellFormed(t)
    ensures Utf8(t) == Encode(t)
  {
    if t != [] { Utf8IsExact(t[FirstWidth(t)..]); }
  }

  lemma {:induction false} WellFormedConcat(a: Text, b: Text)
    requires WellFormed(a) && WellFormed(b)
    ensures WellFormed(a + b)
  {
    if a == [] {
      assert a + b == b;
    } else {
      var n := FirstWidth(a);
      assert PairAt(a + b, 0) == PairAt(a, 0);
      assert (a + b)[n..] == a[n..] + b;
      WellFormedConcat(a[n..], b);
    }
  }

  lemma {:induction false} WellFormedEnd(t: Text)
    requires WellFormed(t) && t != []
    ensures !High(t[|t| - 1])
  {
    if High(t[|t| - 1]) {
      WellFormedAt(t, |t| - 1);
    }
  }

  lemma {:induction false} PlainUnitsWellFormed(t: Text)
    requires forall i | 0 <= i < |t| :: !High(t[i]) && !Low(t[i])
    ensures WellFormed(t)
  {
    if t != [] { PlainUnitsWellFormed(t[1..]); }
  }

  /** Escaped text never holds half a pair. */
  lemma {:induction false} QuoteInnerWellFormed(v: Text)
    ensures WellFormed(QuoteInner(v))
  {
    if v != [] {
      if PairAt(v, 0) {
        QuoteInnerWellFormed(v[2..]);
        assert WellFormed(v[..2][2..]);
        WellFormedConcat(v[..2], QuoteInner(v[2..]));
      } else {
        QuoteInnerWellFormed(v[1..]);
        PlainUnitsWellFormed(EscapeUnit(v[0]));
        WellFormedConcat(EscapeUnit(v[0]), QuoteInner(v[1..]));
      }
    }
  }

  // ---------------------------------------------------------------------------------------------
  // Growing prefixes

  function Comma(first: bool): (t: Text) {
    if first then [] else [',' as int]
  }

  lemma {:induction false} PrintItemsSnoc(items: seq<Value>, v: Value, q: Text -> Text)
    ensures PrintItems(items + [v], q) == PrintItems(items, q) + (Comma(items == []) + Print(v, q))
  {
    var all := items + [v];
    if items == [] {
      assert all == [v];
    } else {
      assert all[1..] == items[1..] + [v];
      PrintItemsSnoc(items[1..], v, q);
      var head := Print(items[0], q) + [',' as int];
      if |items| > 1 {
        Assoc(head, PrintItems(items[1..], q), Comma(false) + Print(v, q));
      } else {
        Assoc(Print(items[0], q), [',' as int], Print(v, q));
      }
    }
  }

  lemma {:induction false} PrintMembersSnoc(ms: seq<Member>, m: Member, q: Text -> Text)
    ensures PrintMembers(ms + [m], q) == PrintMembers(ms, q) + (Comma(ms == []) + PrintMember(m, q))
  {
    var all := ms + [m];
    if ms == [] {
      assert all == [m];
    } else {
      assert all[1..] == ms[1..] + [m];
      PrintMembersSnoc(ms[1..], m, q);
      var head := PrintMember(ms[0], q) + [',' as int];
      if |ms| > 1 {
        Assoc(head, PrintMembers(ms[1..], q), Comma(false) + PrintMember(m, q));
      } else {
        Assoc(PrintMember(ms[0], q), [',' as int], PrintMember(m, q));
      }
    }
  }

  /** One more item, or one more member, after what has been printed so far. */
  lemma ItemsGrow(start: Text, done: seq<Value>, v: Value)
    ensures start + PrintItems(done, ChunkQuote) + Comma(done == []) + Print(v, ChunkQuote) ==
            start + PrintItems(done + [v], ChunkQuote)
  {
    PrintItemsSnoc(done, v, ChunkQuote);
    Assoc(start + PrintItems(done, ChunkQuote), Comma(done == []), Print(v, ChunkQuote));
    Assoc(start, PrintItems(done, ChunkQuote), Comma(done == []) + Print(v, ChunkQuote));
  }

  lemma NextItemGrows(start: Text, all: seq<Value>, index: nat)
    requires index < |all|
    ensures start + PrintItems(all[..index], ChunkQuote) + Comma(index == 0) + Print(all[index], ChunkQuote) ==
            start + PrintItems(all[..index + 1], ChunkQuote)
  {
    ItemsGrow(start, all[..index], all[index]);
    TakeSnoc(all, index);
  }

  lemma MembersGrow(start: Text, done: seq<Member>, m: Member)
    ensures start + PrintMembers(done, ChunkQuote) + Comma(done == []) + PrintMember(m, ChunkQuote) ==
            start + PrintMembers(done + [m], ChunkQuote)
  {
    PrintMembersSnoc(done, m, ChunkQuote);
    Assoc(start + PrintMembers(done, ChunkQuote), Comma(done == []), PrintMember(m, ChunkQuote));
    Assoc(start, PrintMembers(done, ChunkQuote), Comma(done == []) + PrintMember(m, ChunkQuote));
  }

  lemma Enclose(start: Text, open: Text, inner: Text, close: Text)
    ensures start + open + inner + close == start + (open + inner + close)
  {
    Assoc(start, open, inner);
    Assoc(start, open + inner, close);
  }

  lemma {:induction false} CanonMembersSnoc(ms: seq<Member>, m: Member, parent: Value)
    requires parent.Obj? && m in parent.members && forall x | x in ms :: x in parent.members
    ensures CanonMembers(ms + [m], parent) ==
            CanonMembers(ms, parent) + (if m.value.Undefined? then [] else [Member(m.key, Canon(m.value))])
  {
    var all := ms + [m];
    if ms == [] {
      assert all == [m] && all[1..] == [];
    } else {
      assert all[1..] == ms[1..] + [m];
      CanonMembersSnoc(ms[1..], m, parent);
    }
  }

  // ---------------------------------------------------------------------------------------------
  // The digest

  class Digest {
    var hashed: seq<Byte>
    var bytes: nat
    ghost var text: Text

    ghost predicate Valid()
      reads this
    {
      WellFormed(text) && hashed == Encode(text) && bytes == |hashed|
    }

    constructor ()
      ensures Valid() && text == []
    {
      hashed, bytes, text := [], 0, [];
    }

    /** Feeds one piece of text to the hash and adds its byte length. */
    method Emit(t: Text)
      requires Valid() && WellFormed(t)
      modifies this
      ensures Valid() && text == old(text) + t
    {
      hashed := hashed + Utf8(t);
      bytes := bytes + |Utf8(t)|;
      text := text + t;
      WellFormedConcat(old(text), t);
      Utf8IsExact(t);
      if old(text) != [] { WellFormedEnd(old(text)); }
      EncodeConcat(old(text), t);
    }

    /** Feeds a string token chunk by chunk. */
    method EmitString(value: Text)
      requires Valid()
      modifies this
      ensures Valid() && text == old(text) + ChunkQuote(value)
    {
      Emit([QUOTE]);
      var offset := 0;
      ghost var inner: Text := [];
      while offset < |value|
        invariant Valid() && offset <= |value|
        invariant text == old(text) + ([QUOTE] + inner)
        invariant inner + ChunkInner(value, offset) == ChunkInner(value, 0)
        decreases |value| - offset
      {
        var end := if offset + CHUNK < |value| then offset + CHUNK else |value|;
        var last := value[end - 1];
        if end < |value| && High(last) {
          end := end + 1;
        }
        var token := Quote(value[offset..end]);
        assert token[1..|token| - 1] == QuoteInner(value[offset..end]);
        QuoteInnerWellFormed(value[offset..end]);
        Emit(token[1..|token| - 1]);
        Assoc(inner, QuoteInner(value[offset..end]), ChunkInner(value, end));
        Assoc(old(text), [QUOTE] + inner, QuoteInner(value[offset..end]));
        Assoc([QUOTE], inner, QuoteInner(value[offset..end]));
        inner := inner + QuoteInner(value[offset..end]);
        offset := end;
      }
      assert inner == ChunkedInner(value);
      Emit([QUOTE]);
      Assoc(old(text), [QUOTE] + inner, [QUOTE]);
    }

    method EmitWord(w: string)
      requires Valid() && forall i | 0 <= i < |w| :: w[i] as int < 0x80
      modifies this
      ensures Valid() && text == old(text) + Ascii(w)
    {
      PlainUnitsWellFormed(Ascii(w));
      Emit(Ascii(w));
    }

    /** Feeds a value: objects in canonical key order without `undefined`, array holes as `null`. */
    method Visit(value: Value)
      requires Valid() && Answer(value)
      modifies this
      ensures Valid() && text == old(text) + Print(Canon(value), ChunkQuote)
      decreases value, 1, 0
    {
      match value
      case Str(s) => EmitString(s);
      case Arr(items) => VisitItems(items, value);
      case Obj(ms) => VisitMembers(ms, value);
      case Num(token) =>
        NumberTokenUnits(token);
        PlainUnitsWellFormed(token);
        Emit(token);
      case Bool(b) =>
        if b { EmitWord("true"); } else { EmitWord("false"); }
      case _ => EmitWord("null");
    }

    method VisitItems(items: seq<Value>, ghost value: Value)
      requires Valid() && Answer(value) && value == Arr(items)
      modifies this
      ensures Valid() && text == old(text) + Print(Canon(value), ChunkQuote)
      decreases value, 0, 1
    {
      Emit(['[' as int]);
      ghost var all, start := CanonItems(items), text;
      for index := 0 to |items|
        invariant Valid() && text == start + PrintItems(all[..index], ChunkQuote)
      {
        VisitNext(items[index], index, value);
        NextItemGrows(start, all, index);
      }
      assert all[..|items|] == all;
      Emit([']' as int]);
      Enclose(old(text), ['[' as int], PrintItems(all, ChunkQuote), [']' as int]);
    }

    method VisitNext(item: Value, index: nat, ghost parent: Value)
      requires Valid() && Answer(item) && parent.Arr? && item in parent.items
      modifies this
      ensures Valid() && text == old(text) + Comma(index == 0) + Print(Canon(item), ChunkQuote)
      decreases parent, 0, 0
    {
      if index != 0 {
        Emit([',' as int]);
      }
      assert text == old(text) + Comma(index == 0);
      Visit(item);
    }

    method VisitMembers(ms: seq<Member>, ghost value: Value)
      requires Valid() && Answer(value) && value == Obj(ms)
      modifies this
      ensures Valid() && text == old(text) + Print(Canon(value), ChunkQuote)
      decreases value, 0, 1
    {
      Emit(['{' as int]);
      var first := true;
      var ordered := Reorder(ms);
      ghost var done: seq<Member> := [];
      ghost var start := text;
      for index := 0 to |ordered|
        invariant Valid() && done == CanonMembers(ordered[..index], value) && first == (done == [])
        invariant text == start + PrintMembers(done, ChunkQuote)
      {
        var m := ordered[index];
        assert m in ms;
        TakeSnoc(ordered, index);
        CanonMembersSnoc(ordered[..index], m, value);
        if !m.value.Undefined? {
          VisitMember(m, first, value);
          first := false;
          MembersGrow(start, done, Member(m.key, Canon(m.value)));
          done := done + [Member(m.key, Canon(m.value))];
        }
      }
      assert ordered[..|ordered|] == ordered;
      Emit(['}' as int]);
      Enclose(old(text), ['{' as int], PrintMembers(done, ChunkQuote), ['}' as int]);
    }

    method VisitMember(m: Member, first: bool, ghost parent: Value)
      requires Valid() && Answer(m.value) && parent.Obj? && m in parent.members
      modifies this
      ensures Valid()
      ensures text == old(text) + Comma(first) + PrintMember(Member(m.key, Canon(m.value)), ChunkQuote)
      decreases parent, 0, 0
    {
      if !first {
        Emit([',' as int]);
      }
      ghost var start := text;
      assert start == old(text) + Comma(first);
      EmitString(m.key);
      Emit([':' as int]);
      Visit(m.value);
      Assoc(start, ChunkQuote(m.key), [':' as int]);
      Assoc(start, ChunkQuote(m.key) + [':' as int], Print(Canon(m.value), ChunkQuote));
    }
  }

  /**
   * The whole digest, for any hash: it hashes the UTF-8 bytes of the streamed text and counts them.
   * Only `undefined` itself is refused.
   */
  method EngineAnswerDigest(answer: Value, sha256: seq<Byte> -> Text) returns (r: Option<(Text, nat)>)
    requires Answer(answer)
    ensures r == if answer.Undefined? then None
                 else Some((sha256(Encode(StreamText(answer))), |Encode(StreamText(answer))|))
  {
    if answer.Undefined? {
      return None;
    }
    var d := new Digest();
    d.Visit(answer);
    assert [] + Print(Canon(answer), ChunkQuote) == Print(Canon(answer), ChunkQuote);
    r := Some((sha256(d.hashed), d.bytes));
  }

  /** The hashed bytes are equal exactly for the same answer, so only a hash collision can hide a difference. */
  lemma HashedBytesSeparate(a: Value, b: Value)
    requires Answer(a) && Answer(b)
    ensures Encode(StreamText(a)) == Encode(StreamText(b)) <==> SameAnswer(a, b)
  {
    StreamSeparates(a, b);
    if Encode(StreamText(a)) == Encode(StreamText(b)) {
      EncodeInjective(StreamText(a), StreamText(b));
    }
  }
}
