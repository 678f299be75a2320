/** The pieces of a diagram line: how they are written and how the line patterns read them back. */
module BlueprintText {
  import opened Basics
  import opened Utf16
  import opened Json

  // ---------------------------------------------------------------------------------------------
  // Carrier JSON: `json` of the prototype

  predicate Special(u: Unit) {
    u == '&' as int || u == '<' as int || u == '>' as int || u == '%' as int || u == '#' as int
  }

  /** The replacement of `&<>%#` by Unicode escapes over a whole JSON text. */
  function EscapeSpecials(t: Text): (r: Text) {
    if t == [] then []
    else (if Special(t[0]) then UnicodeEscape(t[0]) else [t[0]]) + EscapeSpecials(t[1..])
  }

  function CarrierJson(v: Value): (t: Text) {
    EscapeSpecials(Print(v, Quote))
  }

  function CarrierInner(v: Text): (t: Text) {
    EscapeSpecials(QuoteInner(v))
  }

  function CarrierQuote(v: Text): (t: Text) {
    [QUOTE] + CarrierInner(v) + [QUOTE]
  }

  lemma {:induction false} EscapeSpecialsConcat(a: Text, b: Text)
    ensures EscapeSpecials(a + b) == EscapeSpecials(a) + EscapeSpecials(b)
  {
    if a == [] {
      assert a + b == b;
    } else {
      assert (a + b)[1..] == a[1..] + b;
      EscapeSpecialsConcat(a[1..], b);
    }
  }

  ghost predicate NoSpecials(t: Text) {
    forall i | 0 <= i < |t| :: !Special(t[i])
  }

  lemma {:induction false} EscapeSpecialsNothing(t: Text)
    requires NoSpecials(t)
    ensures EscapeSpecials(t) == t
  {
    if t != [] { EscapeSpecialsNothing(t[1..]); }
  }

  lemma StandsEscaped(u: Unit)
    ensures Stands(EscapeSpecials(EscapeUnit(u)), [u])
  {
    if Special(u) {
      assert EscapeUnit(u)[1..] == [];
      assert EscapeSpecials(EscapeUnit(u)) == UnicodeEscape(u);
      StandsUnicodeEscape(u);
    } else {
      EscapeUnitPlain(u);
      EscapeSpecialsNothing(EscapeUnit(u));
      StandsEscapeUnit(u);
    }
  }

  lemma EscapeUnitPlain(u: Unit)
    requires !Special(u)
    ensures NoSpecials(EscapeUnit(u))
  {
  }

  lemma {:induction false} StandsCarrierInner(v: Text)
    ensures Stands(CarrierInner(v), v)
  {
    if v == [] {
      StandsEmpty();
    } else if PairAt(v, 0) {
      StandsRaw(v[0]);
      StandsRaw(v[1]);
      StandsConcat([v[0]], [v[0]], [v[1]], [v[1]]);
      assert [v[0]] + [v[1]] == v[..2];
      EscapeSpecialsNothing(v[..2]);
      EscapeSpecialsConcat(v[..2], QuoteInner(v[2..]));
      StandsCarrierInner(v[2..]);
      StandsConcat(v[..2], v[..2], CarrierInner(v[2..]), v[2..]);
      assert v[..2] + v[2..] == v;
    } else {
      StandsEscaped(v[0]);
      EscapeSpecialsConcat(EscapeUnit(v[0]), QuoteInner(v[1..]));
      StandsCarrierInner(v[1..]);
      StandsConcat(EscapeSpecials(EscapeUnit(v[0])), [v[0]], CarrierInner(v[1..]), v[1..]);
      assert [v[0]] + v[1..] == v;
    }
  }

  lemma CarrierQuoteIsFaithful()
    ensures Faithful(CarrierQuote)
  {
    forall v: Text ensures CarrierQuote(v) == [QUOTE] + CarrierInner(v) + [QUOTE] && Stands(CarrierInner(v), v) {
      StandsCarrierInner(v);
    }
    FaithfulByParts(CarrierQuote, CarrierInner);
  }

  lemma EscapedQuote(v: Text)
    ensures EscapeSpecials(Quote(v)) == CarrierQuote(v)
  {
    EscapeSpecialsConcat([QUOTE] + QuoteInner(v), [QUOTE]);
    EscapeSpecialsConcat([QUOTE], QuoteInner(v));
    EscapeSpecialsNothing([QUOTE]);
  }

  lemma EscapedBetween(open: Unit, inner: Text, close: Unit)
    requires !Special(open) && !Special(close)
    ensures EscapeSpecials([open] + inner + [close]) == [open] + EscapeSpecials(inner) + [close]
  {
    EscapeSpecialsConcat([open] + inner, [close]);
    EscapeSpecialsConcat([open], inner);
    EscapeSpecialsNothing([open]);
    EscapeSpecialsNothing([close]);
  }

  lemma EscapedJoin(a: Text, middle: Unit, b: Text)
    requires !Special(middle)
    ensures EscapeSpecials(a + [middle] + b) == EscapeSpecials(a) + [middle] + EscapeSpecials(b)
  {
    EscapeSpecialsConcat(a + [middle], b);
    EscapeSpecialsConcat(a, [middle]);
    EscapeSpecialsNothing([middle]);
  }

  /** Escaping the whole text touches only its strings: it prints with another quoter. */
  lemma {:induction false} EscapedPrint(v: Value)
    requires Plain(v)
    ensures EscapeSpecials(Print(v, Quote)) == Print(v, CarrierQuote)
  {
    match v
    case Num(token) =>
      NumberTokenUnits(token);
      EscapeSpecialsNothing(token);
    case Str(s) => EscapedQuote(s);
    case Arr(items) =>
      EscapedItems(items);
      EscapedBetween('[' as int, PrintItems(items, Quote), ']' as int);
    case Obj(ms) =>
      EscapedMembers(ms);
      EscapedBetween('{' as int, PrintMembers(ms, Quote), '}' as int);
    case _ => EscapeSpecialsNothing(Print(v, Quote));
  }

  lemma {:induction false} EscapedItems(items: seq<Value>)
    requires PlainItems(items)
    ensures EscapeSpecials(PrintItems(items, Quote)) == PrintItems(items, CarrierQuote)
  {
    if items != [] {
      EscapedPrint(items[0]);
      EscapedItems(items[1..]);
      EscapedJoin(Print(items[0], Quote), ',' as int, PrintItems(items[1..], Quote));
    }
  }

  lemma {:induction false} EscapedMembers(ms: seq<Member>)
    requires PlainMembers(ms)
    ensures EscapeSpecials(PrintMembers(ms, Quote)) == PrintMembers(ms, CarrierQuote)
  {
    if ms != [] {
      EscapedPrint(ms[0].value);
      EscapedQuote(ms[0].key);
      EscapedJoin(Quote(ms[0].key), ':' as int, Print(ms[0].value, Quote));
      EscapedMembers(ms[1..]);
      EscapedJoin(PrintMember(ms[0], Quote), ',' as int, PrintMembers(ms[1..], Quote));
    }
  }

  /** The carrier text of a value reads back as that value. */
  lemma CarrierReadsBack(v: Value)
    requires Plain(v)
    ensures Parse(CarrierJson(v)) == Some(v)
  {
    CarrierQuoteIsFaithful();
    EscapedPrint(v);
    RoundTrip(v, CarrierQuote);
  }

  // ---------------------------------------------------------------------------------------------
  // Line terminators inside carrier JSON

  predicate Separator(u: Unit) {
    u == 0x2028 || u == 0x2029
  }

  /** What `.` in a pattern does not match (section 12.3 of ECMA-262). */
  predicate LineTerminator(u: Unit) {
    u == NEWLINE || u == RETURN || Separator(u)
  }

  predicate HasSeparator(t: Text) {
    exists i :: 0 <= i < |t| && Separator(t[i])
  }

  /** JSON text holds no control characters. */
  ghost predicate Printable(t: Text) {
    forall i | 0 <= i < |t| :: t[i] >= 0x20
  }

  lemma SeparatorConcat(a: Text, b: Text)
    ensures HasSeparator(a + b) <==> HasSeparator(a) || HasSeparator(b)
    ensures Printable(a) && Printable(b) ==> Printable(a + b)
  {
    if HasSeparator(a) {
      var i :| 0 <= i < |a| && Separator(a[i]);
      assert Separator((a + b)[i]);
    }
    if HasSeparator(b) {
      var i :| 0 <= i < |b| && Separator(b[i]);
      assert Separator((a + b)[|a| + i]);
    }
  }

  lemma NoSeparator(t: Text)
    requires forall i | 0 <= i < |t| :: 0x20 <= t[i] < 0x2028
    ensures !HasSeparator(t) && Printable(t)
  {
  }

  /** Does any string or key of the value hold U+2028 or U+2029? */
  predicate SeparatorInside(v: Value) {
    match v
    case Str(s) => HasSeparator(s)
    case Arr(items) => SeparatorInItems(items)
    case Obj(ms) => SeparatorInMembers(ms)
    case _ => false
  }

  predicate SeparatorInItems(items: seq<Value>) {
    items != [] && (SeparatorInside(items[0]) || SeparatorInItems(items[1..]))
  }

  predicate SeparatorInMembers(ms: seq<Member>) {
    ms != [] && (HasSeparator(ms[0].key) || SeparatorInside(ms[0].value) || SeparatorInMembers(ms[1..]))
  }

  lemma UnicodeEscapeClean(u: Unit)
    ensures !HasSeparator(UnicodeEscape(u)) && Printable(UnicodeEscape(u))
  {
    NoSeparator(UnicodeEscape(u));
  }

  lemma EscapeUnitSeparator(u: Unit)
    ensures HasSeparator(EscapeUnit(u)) <==> Separator(u)
    ensures Printable(EscapeUnit(u))
  {
    var e := EscapeUnit(u);
    if |e| == 1 {
      assert e[0] == u;
    } else if |e| == 2 {
      NoSeparator(e);
    } else {
      UnicodeEscapeClean(u);
    }
  }

  lemma CarrierUnitSeparator(u: Unit)
    ensures HasSeparator(EscapeSpecials(EscapeUnit(u))) <==> Separator(u)
    ensures Printable(EscapeSpecials(EscapeUnit(u)))
  {
    if Special(u) {
      assert EscapeUnit(u) == [u] && [u][1..] == [];
      assert EscapeSpecials([u]) == UnicodeEscape(u);
      UnicodeEscapeClean(u);
    } else {
      EscapeUnitPlain(u);
      EscapeSpecialsNothing(EscapeUnit(u));
      EscapeUnitSeparator(u);
    }
  }

  lemma {:induction false} CarrierInnerSeparator(v: Text)
    ensures HasSeparator(CarrierInner(v)) <==> HasSeparator(v)
    ensures Printable(CarrierInner(v))
  {
    if v == [] {
    } else if PairAt(v, 0) {
      EscapeSpecialsNothing(v[..2]);
      EscapeSpecialsConcat(v[..2], QuoteInner(v[2..]));
      CarrierInnerSeparator(v[2..]);
      SeparatorConcat(v[..2], CarrierInner(v[2..]));
      SeparatorConcat(v[..2], v[2..]);
      assert v[..2] + v[2..] == v;
    } else {
      EscapeSpecialsConcat(EscapeUnit(v[0]), QuoteInner(v[1..]));
      CarrierUnitSeparator(v[0]);
      CarrierInnerSeparator(v[1..]);
      SeparatorConcat(EscapeSpecials(EscapeUnit(v[0])), CarrierInner(v[1..]));
      SeparatorConcat([v[0]], v[1..]);
      assert [v[0]] + v[1..] == v;
      assert HasSeparator([v[0]]) <==> Separator(v[0]) by { assert [v[0]][0] == v[0]; }
    }
  }

  lemma BetweenSeparator(open: Unit, inner: Text, close: Unit)
    requires 0x20 <= open < 0x2028 && 0x20 <= close < 0x2028
    ensures HasSeparator([open] + inner + [close]) <==> HasSeparator(inner)
    ensures Printable(inner) ==> Printable([open] + inner + [close])
  {
    NoSeparator([open]);
    NoSeparator([close]);
    SeparatorConcat([open] + inner, [close]);
    SeparatorConcat([open], inner);
  }

  lemma JoinSeparator(a: Text, middle: Unit, b: Text)
    requires 0x20 <= middle < 0x2028
    ensures HasSeparator(a + [middle] + b) <==> HasSeparator(a) || HasSeparator(b)
    ensures Printable(a) && Printable(b) ==> Printable(a + [middle] + b)
  {
    NoSeparator([middle]);
    SeparatorConcat(a + [middle], b);
    SeparatorConcat(a, [middle]);
  }

  lemma CarrierQuoteSeparator(v: Text)
    ensures HasSeparator(CarrierQuote(v)) <==> HasSeparator(v)
    ensures Printable(CarrierQuote(v))
  {
    CarrierInnerSeparator(v);
    BetweenSeparator(QUOTE, CarrierInner(v), QUOTE);
  }

  lemma {:induction false} PrintSeparator(v: Value)
    requires Plain(v)
    ensures HasSeparator(Print(v, CarrierQuote)) <==> SeparatorInside(v)
    ensures Printable(Print(v, CarrierQuote))
  {
    match v
    case Num(token) =>
      NumberTokenUnits(token);
      NoSeparator(token);
    case Str(s) => CarrierQuoteSeparator(s);
    case Arr(items) =>
      ItemsSeparator(items);
      BetweenSeparator('[' as int, PrintItems(items, CarrierQuote), ']' as int);
    case Obj(ms) =>
      MembersSeparator(ms);
      BetweenSeparator('{' as int, PrintMembers(ms, CarrierQuote), '}' as int);
    case _ => NoSeparator(Print(v, CarrierQuote));
  }

  lemma {:induction false} ItemsSeparator(items: seq<Value>)
    requires PlainItems(items)
    ensures HasSeparator(PrintItems(items, CarrierQuote)) <==> SeparatorInItems(items)
    ensures Printable(PrintItems(items, CarrierQuote))
  {
    if items != [] {
      PrintSeparator(items[0]);
      ItemsSeparator(items[1..]);
      if |items| > 1 {
        JoinSeparator(Print(items[0], CarrierQuote), ',' as int, PrintItems(items[1..], CarrierQuote));
      }
    }
  }

  lemma {:induction false} MembersSeparator(ms: seq<Member>)
    requires PlainMembers(ms)
    ensures HasSeparator(PrintMembers(ms, CarrierQuote)) <==> SeparatorInMembers(ms)
    ensures Printable(PrintMembers(ms, CarrierQuote))
  {
    if ms != [] {
      var m := ms[0];
      CarrierQuoteSeparator(m.key);
      PrintSeparator(m.value);
      JoinSeparator(CarrierQuote(m.key), ':' as int, Print(m.value, CarrierQuote));
      MembersSeparator(ms[1..]);
      if |ms| > 1 {
        JoinSeparator(PrintMember(m, CarrierQuote), ',' as int, PrintMembers(ms[1..], CarrierQuote));
      }
    }
  }

  /** Carrier JSON has no line break, and a separator only where the value has one. */
  lemma CarrierSeparator(v: Value)
    requires Plain(v)
    ensures HasSeparator(CarrierJson(v)) <==> SeparatorInside(v)
    ensures Printable(CarrierJson(v))
  {
    EscapedPrint(v);
    PrintSeparator(v);
  }

  // ---------------------------------------------------------------------------------------------
  // The line patterns

  predicate Word(u: Unit) {
    Digit(u) || 'a' as int <= u <= 'z' as int || 'A' as int <= u <= 'Z' as int || u == '_' as int
  }

  ghost predicate AllWord(t: Text) {
    forall i | 0 <= i < |t| :: Word(t[i])
  }

  function WordCount(t: Text): (n: nat)
    ensures n <= |t| && forall i | 0 <= i < n :: Word(t[i])
    ensures n < |t| ==> !Word(t[n])
  {
    if t != [] && Word(t[0]) then 1 + WordCount(t[1..]) else 0
  }

  function Expect(word: Text, t: Text): (r: Option<Text>) {
    if word <= t then Some(t[|word|..]) else None
  }

  /** `\w+` */
  function ScanWord(t: Text): (r: Option<(Text, Text)>) {
    var n := WordCount(t);
    if n > 0 then Some((t[..n], t[n..])) else None
  }

  /** How much of the text a string literal body and its closing quote take. */
  function BodyLength(t: Text): (r: Option<nat>)
    ensures r.Some? ==> r.value <= |t|
  {
    if t == [] then None
    else if t[0] == QUOTE then Some(1)
    else if t[0] == BACKSLASH then
      if |t| < 2 || LineTerminator(t[1]) then None
      else
        match BodyLength(t[2..])
        case None => None
        case Some(n) => Some(n + 2)
    else
      match BodyLength(t[1..])
      case None => None
      case Some(n) => Some(n + 1)
  }

  /** `"(?:[^"\\]|\\.)*"` */
  function ScanString(t: Text): (r: Option<(Text, Text)>) {
    if t == [] || t[0] != QUOTE then None
    else
      match BodyLength(t[1..])
      case None => None
      case Some(n) => Some((t[..n + 1], t[n + 1..]))
  }

  /** `-?\d+` and its value */
  function ScanInt(t: Text): (r: Option<(int, Text)>) {
    var negative := t != [] && t[0] == '-' as int;
    var d := if negative then t[1..] else t;
    var n := DigitCount(d);
    if n == 0 then None
    else Some((if negative then -Decimal(d[..n]) else Decimal(d[..n]), d[n..]))
  }

  /** `.+` up to the end of the line */
  predicate IsTail(t: Text) {
    t != [] && forall i | 0 <= i < |t| :: !LineTerminator(t[i])
  }

  /** `\w+\.\w+` */
  function ScanEndpoint(t: Text): (r: Option<(Text, Text)>) {
    var n := WordCount(t);
    if n == 0 || n == |t| || t[n] != '.' as int then None
    else
      var m := WordCount(t[n + 1..]);
      if m == 0 then None else Some((t[..n + 1 + m], t[n + 1 + m..]))
  }

  lemma ExpectReads(word: Text, rest: Text)
    ensures Expect(word, word + rest) == Some(rest)
  {
  }

  lemma {:induction false} WordCountExact(w: Text, rest: Text)
    requires AllWord(w) && (rest == [] || !Word(rest[0]))
    ensures WordCount(w + rest) == |w|
  {
    if w == [] {
      assert w + rest == rest;
    } else {
      assert (w + rest)[1..] == w[1..] + rest;
      WordCountExact(w[1..], rest);
    }
  }

  lemma ScanWordReads(w: Text, rest: Text)
    requires w != [] && AllWord(w) && (rest == [] || !Word(rest[0]))
    ensures ScanWord(w + rest) == Some((w, rest))
  {
    WordCountExact(w, rest);
  }

  lemma ScanEndpointReads(a: Text, b: Text, rest: Text)
    requires a != [] && AllWord(a) && b != [] && AllWord(b) && (rest == [] || !Word(rest[0]))
    ensures ScanEndpoint(a + ['.' as int] + b + rest) == Some((a + ['.' as int] + b, rest))
  {
    var tail := ['.' as int] + (b + rest);
    var t := a + tail;
    Assoc(a + ['.' as int], b, rest);
    Assoc(a, ['.' as int], b + rest);
    WordCountExact(a, tail);
    assert t[|a| + 1..] == b + rest;
    WordCountExact(b, rest);
    var n := |a| + 1 + |b|;
    assert t[..n] == a + ['.' as int] + b;
    assert t[n..] == rest;
  }

  // String literals

  /** The body pattern passes over the whole of `t`. */
  ghost predicate Passes(t: Text) {
    forall rest: Text {:trigger t + rest} ::
      BodyLength(t + rest) == (match BodyLength(rest) case None => None case Some(n) => Some(|t| + n))
  }

  lemma PassesConcat(a: Text, b: Text)
    requires Passes(a) && Passes(b)
    ensures Passes(a + b)
  {
    forall rest: Text
      ensures BodyLength(a + b + rest) == match BodyLength(rest) case None => None case Some(n) => Some(|a + b| + n)
    {
      Assoc(a, b, rest);
      assert BodyLength(b + rest) == match BodyLength(rest) case None => None case Some(n) => Some(|b| + n);
    }
  }

  lemma PassesRaw(u: Unit)
    requires u != QUOTE && u != BACKSLASH
    ensures Passes([u])
  {
    forall rest: Text
      ensures BodyLength([u] + rest) == match BodyLength(rest) case None => None case Some(n) => Some(1 + n)
    {
      assert ([u] + rest)[1..] == rest;
    }
  }

  lemma PassesEscape(u: Unit)
    requires !LineTerminator(u)
    ensures Passes([BACKSLASH, u])
  {
    forall rest: Text
      ensures BodyLength([BACKSLASH, u] + rest) == match BodyLength(rest) case None => None case Some(n) => Some(2 + n)
    {
      assert ([BACKSLASH, u] + rest)[2..] == rest;
    }
  }

  lemma PassesUnicode(u: Unit)
    ensures Passes(UnicodeEscape(u))
  {
    var e := UnicodeEscape(u);
    PassesEscape('u' as int);
    PassesRaw(e[2]);
    PassesRaw(e[3]);
    PassesRaw(e[4]);
    PassesRaw(e[5]);
    PassesConcat([BACKSLASH, 'u' as int], [e[2]]);
    PassesConcat([BACKSLASH, 'u' as int] + [e[2]], [e[3]]);
    PassesConcat([BACKSLASH, 'u' as int] + [e[2]] + [e[3]], [e[4]]);
    PassesConcat([BACKSLASH, 'u' as int] + [e[2]] + [e[3]] + [e[4]], [e[5]]);
    assert e == [BACKSLASH, 'u' as int] + [e[2]] + [e[3]] + [e[4]] + [e[5]];
  }

  lemma PassesCarrierUnit(u: Unit)
    ensures Passes(EscapeSpecials(EscapeUnit(u)))
  {
    var e := EscapeUnit(u);
    if Special(u) {
      assert e[1..] == [];
      assert EscapeSpecials(e) == UnicodeEscape(u);
      PassesUnicode(u);
    } else {
      EscapeUnitPlain(u);
      EscapeSpecialsNothing(e);
      if |e| == 1 {
        PassesRaw(u);
      } else if |e| == 2 {
        PassesEscape(e[1]);
        assert e == [BACKSLASH, e[1]];
      } else {
        PassesUnicode(u);
      }
    }
  }

  lemma {:induction false} PassesCarrierInner(v: Text)
    ensures Passes(CarrierInner(v))
  {
    if v == [] {
      forall rest: Text
        ensures BodyLength([] + rest) == match BodyLength(rest) case None => None case Some(n) => Some(0 + n)
      {
        assert [] + rest == rest;
      }
    } else if PairAt(v, 0) {
      EscapeSpecialsNothing(v[..2]);
      EscapeSpecialsConcat(v[..2], QuoteInner(v[2..]));
      PassesRaw(v[0]);
      PassesRaw(v[1]);
      PassesConcat([v[0]], [v[1]]);
      assert [v[0]] + [v[1]] == v[..2];
      PassesCarrierInner(v[2..]);
      PassesConcat(v[..2], CarrierInner(v[2..]));
    } else {
      EscapeSpecialsConcat(EscapeUnit(v[0]), QuoteInner(v[1..]));
      PassesCarrierUnit(v[0]);
      PassesCarrierInner(v[1..]);
      PassesConcat(EscapeSpecials(EscapeUnit(v[0])), CarrierInner(v[1..]));
    }
  }

  /** The string pattern takes exactly the printed string token. */
  lemma ScanStringReads(v: Text, rest: Text)
    ensures CarrierJson(Str(v)) == CarrierQuote(v)
    ensures ScanString(CarrierQuote(v) + rest) == Some((CarrierQuote(v), rest))
  {
    EscapedQuote(v);
    PassesCarrierInner(v);
    var inner := CarrierInner(v);
    var close := [QUOTE] + rest;
    var t := [QUOTE] + (inner + close);
    Assoc([QUOTE] + inner, [QUOTE], rest);
    Assoc([QUOTE], inner, close);
    assert t[1..] == inner + close;
    assert BodyLength(close) == Some(1);
    assert BodyLength(t[1..]) == Some(|inner| + 1);
    assert t == CarrierQuote(v) + rest;
  }

  // Integers

  function NatText(n: nat): (t: Text)
    ensures t != []
  {
    if n < 10 then ['0' as int + n] else NatText(n / 10) + ['0' as int + n % 10]
  }

  function IntText(n: int): (t: Text) {
    if n < 0 then ['-' as int] + NatText(-n) else NatText(n)
  }

  lemma {:induction false} NatTextReads(n: nat)
    ensures Decimal(NatText(n)) == n && forall i | 0 <= i < |NatText(n)| :: Digit(NatText(n)[i])
  {
    var t := NatText(n);
    if n < 10 {
      assert t[..|t| - 1] == [];
      assert Decimal([]) == 0;
    } else {
      NatTextReads(n / 10);
      assert t[..|t| - 1] == NatText(n / 10);
    }
  }

  lemma {:induction false} DigitCountExact(d: Text, rest: Text)
    requires (forall i | 0 <= i < |d| :: Digit(d[i])) && (rest == [] || !Digit(rest[0]))
    ensures DigitCount(d + rest) == |d|
  {
    if d == [] {
      assert d + rest == rest;
    } else {
      assert (d + rest)[1..] == d[1..] + rest;
      DigitCountExact(d[1..], rest);
    }
  }

  lemma ScanIntReads(n: int, rest: Text)
    requires rest == [] || !Digit(rest[0])
    ensures ScanInt(IntText(n) + rest) == Some((n, rest))
  {
    if n < 0 {
      DigitsRead(-n, rest);
      ScanMinus(NatText(-n), rest);
      assert IntText(n) == ['-' as int] + NatText(-n);
    } else {
      DigitsRead(n, rest);
      ScanPlain(NatText(n), rest);
    }
  }

  lemma ScanPlain(d: Text, rest: Text)
    requires d != [] && Digit(d[0]) && DigitCount(d + rest) == |d|
    ensures ScanInt(d + rest) == Some((Decimal(d), rest))
  {
    var t := d + rest;
    assert t[..|d|] == d && t[|d|..] == rest && t[0] == d[0];
  }

  lemma ScanMinus(d: Text, rest: Text)
    requires d != [] && DigitCount(d + rest) == |d|
    ensures ScanInt((['-' as int] + d) + rest) == Some((-Decimal(d), rest))
  {
    var t := d + rest;
    Assoc(['-' as int], d, rest);
    assert (['-' as int] + t)[1..] == t && t[..|d|] == d && t[|d|..] == rest;
  }

  lemma DigitsRead(n: nat, rest: Text)
    requires rest == [] || !Digit(rest[0])
    ensures var d, t := NatText(n), NatText(n) + rest;
      DigitCount(t) == |d| && d != [] && Digit(d[0]) && Decimal(t[..|d|]) == n && t[|d|..] == rest
  {
    var d := NatText(n);
    NatTextReads(n);
    DigitCountExact(d, rest);
    assert (d + rest)[..|d|] == d && (d + rest)[|d|..] == rest;
  }
}
