/**
 * JSON text as JavaScript writes and reads it: `JSON.stringify` (QuoteJSONString, section 25.5.2 of
 * ECMA-262, with lone surrogates escaped) and `JSON.parse`. The printer takes the string quoter as a
 * parameter, because the repository prints strings in three ways that must all read back.
 */
module Json {
  import opened Basics
  import opened Utf16

  /**
   * A number is its JSON token. `Undefined` is never read; it is what a JavaScript object or array
   * may hold when it is printed.
   */
  datatype Value =
    | Undefined
    | Null
    | Bool(b: bool)
    | Num(token: Text)
    | Str(text: Text)
    | Arr(items: seq<Value>)
    | Obj(members: seq<Member>)

  /** The members of an object stand in enumeration order. */
  datatype Member = Member(key: Text, value: Value)

  // ---------------------------------------------------------------------------------------------
  // Strings

  function HexDigit(n: int): (u: Unit)
    requires 0 <= n < 16
  {
    if n < 10 then '0' as int + n else 'a' as int + n - 10
  }

  function HexValue(u: Unit): (n: int)
    ensures -1 <= n < 16
  {
    if Digit(u) then u - '0' as int
    else if 'a' as int <= u <= 'f' as int then u - 'a' as int + 10
    else if 'A' as int <= u <= 'F' as int then u - 'A' as int + 10
    else -1
  }

  function UnicodeEscape(u: Unit): (t: Text)
    ensures |t| == 6
  {
    [BACKSLASH, 'u' as int, HexDigit(u / 4096), HexDigit(u / 256 % 16), HexDigit(u / 16 % 16), HexDigit(u % 16)]
  }

  /** One unit that is not half of a surrogate pair, as QuoteJSONString writes it. */
  function EscapeUnit(u: Unit): (t: Text)
    ensures 1 <= |t| <= 6
  {
    if u == QUOTE then [BACKSLASH, QUOTE]
    else if u == BACKSLASH then [BACKSLASH, BACKSLASH]
    else if u == 0x08 then [BACKSLASH, 'b' as int]
    else if u == 0x0C then [BACKSLASH, 'f' as int]
    else if u == NEWLINE then [BACKSLASH, 'n' as int]
    else if u == RETURN then [BACKSLASH, 'r' as int]
    else if u == 0x09 then [BACKSLASH, 't' as int]
    else if u < 0x20 || High(u) || Low(u) then UnicodeEscape(u)
    else [u]
  }

  /** The text between the quotes: surrogate pairs stay, everything else is escaped unit by unit. */
  function QuoteInner(v: Text): (t: Text) {
    if v == [] then []
    else if PairAt(v, 0) then v[..2] + QuoteInner(v[2..])
    else EscapeUnit(v[0]) + QuoteInner(v[1..])
  }

  function Quote(v: Text): (t: Text) {
    [QUOTE] + QuoteInner(v) + [QUOTE]
  }

  function SimpleEscape(u: Unit): (r: Option<Unit>) {
    if u == QUOTE || u == BACKSLASH || u == '/' as int then Some(u)
    else if u == 'b' as int then Some(0x08)
    else if u == 'f' as int then Some(0x0C)
    else if u == 'n' as int then Some(NEWLINE)
    else if u == 'r' as int then Some(RETURN)
    else if u == 't' as int then Some(0x09)
    else None
  }

  function Prepend(head: Text, r: Option<(Text, Text)>): (p: Option<(Text, Text)>) {
    match r
    case None => None
    case Some((v, rest)) => Some((head + v, rest))
  }

  /** Reads a string after its opening quote; returns the value and the text after the closing quote. */
  function DecodeBody(t: Text): (r: Option<(Text, Text)>)
    ensures r.Some? ==> |r.value.1| < |t|
  {
    if t == [] then None
    else if t[0] == QUOTE then Some(([], t[1..]))
    else if t[0] == BACKSLASH then
      if |t| < 2 then None
      else if t[1] == 'u' as int then
        if |t| < 6 || HexValue(t[2]) < 0 || HexValue(t[3]) < 0 || HexValue(t[4]) < 0 || HexValue(t[5]) < 0 then None
        else
          Prepend([HexValue(t[2]) * 4096 + HexValue(t[3]) * 256 + HexValue(t[4]) * 16 + HexValue(t[5])],
                  DecodeBody(t[6..]))
      else
        match SimpleEscape(t[1])
        case None => None
        case Some(u) => Prepend([u], DecodeBody(t[2..]))
    else if t[0] < 0x20 then None
    else Prepend([t[0]], DecodeBody(t[1..]))
  }

  /** A quoter whose every token reads back, whatever follows it. */
  ghost predicate Faithful(q: Text -> Text) {
    forall v: Text, rest: Text {:trigger q(v) + rest} ::
      q(v) != [] && q(v)[0] == QUOTE && DecodeBody((q(v) + rest)[1..]) == Some((v, rest))
  }

  /** `t` stands for `v` inside a string token. */
  ghost predicate Stands(t: Text, v: Text) {
    forall rest: Text {:trigger t + rest} :: DecodeBody(t + rest) == Prepend(v, DecodeBody(rest))
  }

  lemma StandsEmpty()
    ensures Stands([], [])
  {
    forall rest: Text ensures DecodeBody([] + rest) == Prepend([], DecodeBody(rest)) {
      assert [] + rest == rest;
      match DecodeBody(rest)
      case None =>
      case Some((v, r)) => assert [] + v == v;
    }
  }

  lemma StandsConcat(t1: Text, v1: Text, t2: Text, v2: Text)
    requires Stands(t1, v1) && Stands(t2, v2)
    ensures Stands(t1 + t2, v1 + v2)
  {
    forall rest: Text ensures DecodeBody((t1 + t2) + rest) == Prepend(v1 + v2, DecodeBody(rest)) {
      assert (t1 + t2) + rest == t1 + (t2 + rest);
      match DecodeBody(rest)
      case None =>
      case Some((v, r)) => assert v1 + (v2 + v) == (v1 + v2) + v;
    }
  }

  lemma HexReads(n: int)
    requires 0 <= n < 16
    ensures HexValue(HexDigit(n)) == n
  {
  }

  lemma FourDigits(u: Unit)
    ensures u / 4096 * 4096 + u / 256 % 16 * 256 + u / 16 % 16 * 16 + u % 16 == u
  {
    var h := u / 16;
    var g := h / 16;
    assert u / 256 == g && u / 4096 == g / 16;
  }

  lemma StandsUnicodeEscape(u: Unit)
    ensures Stands(UnicodeEscape(u), [u])
  {
    var a, b, c, d := u / 4096, u / 256 % 16, u / 16 % 16, u % 16;
    HexReads(a);
    HexReads(b);
    HexReads(c);
    HexReads(d);
    FourDigits(u);
    var e := UnicodeEscape(u);
    forall rest: Text ensures DecodeBody(e + rest) == Prepend([u], DecodeBody(rest)) {
      var t := e + rest;
      assert t[6..] == rest;
      assert t[0] == BACKSLASH && t[1] == 'u' as int;
      assert t[2] == HexDigit(a) && t[3] == HexDigit(b) && t[4] == HexDigit(c) && t[5] == HexDigit(d);
    }
  }

  lemma StandsRaw(u: Unit)
    requires u >= 0x20 && u != QUOTE && u != BACKSLASH
    ensures Stands([u], [u])
  {
    forall rest: Text ensures DecodeBody([u] + rest) == Prepend([u], DecodeBody(rest)) {
      assert ([u] + rest)[1..] == rest;
    }
  }

  lemma StandsEscapeUnit(u: Unit)
    ensures Stands(EscapeUnit(u), [u])
  {
    var e := EscapeUnit(u);
    if |e| == 6 {
      StandsUnicodeEscape(u);
    } else if |e| == 1 {
      StandsRaw(u);
    } else {
      forall rest: Text ensures DecodeBody(e + rest) == Prepend([u], DecodeBody(rest)) {
        assert (e + rest)[2..] == rest;
        assert SimpleEscape(e[1]) == Some(u);
      }
    }
  }

  lemma {:induction false} StandsQuoteInner(v: Text)
    ensures Stands(QuoteInner(v), v)
  {
    if v == [] {
      StandsEmpty();
    } else if PairAt(v, 0) {
      StandsRaw(v[0]);
      StandsRaw(v[1]);
      StandsConcat([v[0]], [v[0]], [v[1]], [v[1]]);
      assert [v[0]] + [v[1]] == v[..2];
      StandsQuoteInner(v[2..]);
      StandsConcat(v[..2], v[..2], QuoteInner(v[2..]), v[2..]);
      assert v[..2] + v[2..] == v;
    } else {
      StandsEscapeUnit(v[0]);
      StandsQuoteInner(v[1..]);
      StandsConcat(EscapeUnit(v[0]), [v[0]], QuoteInner(v[1..]), v[1..]);
      assert [v[0]] + v[1..] == v;
    }
  }

  /** Any quoted text whose inside stands for the value is read back exactly. */
  lemma TokenReads(inner: Text, v: Text, rest: Text)
    requires Stands(inner, v)
    ensures DecodeBody(([QUOTE] + inner + [QUOTE] + rest)[1..]) == Some((v, rest))
  {
    assert ([QUOTE] + inner + [QUOTE] + rest)[1..] == inner + ([QUOTE] + rest);
    assert ([QUOTE] + rest)[1..] == rest;
    assert v + [] == v;
  }

  /** A quoter that puts quotes around text standing for the value is faithful. */
  lemma FaithfulByParts(q: Text -> Text, inner: Text -> Text)
    requires forall v: Text :: q(v) == [QUOTE] + inner(v) + [QUOTE] && Stands(inner(v), v)
    ensures Faithful(q)
  {
    forall v: Text, rest: Text
      ensures q(v) != [] && q(v)[0] == QUOTE && DecodeBody((q(v) + rest)[1..]) == Some((v, rest))
    {
      TokenReads(inner(v), v, rest);
    }
  }

  lemma QuoteIsFaithful()
    ensures Faithful(Quote)
  {
    forall v: Text ensures Quote(v) == [QUOTE] + QuoteInner(v) + [QUOTE] && Stands(QuoteInner(v), v) {
      StandsQuoteInner(v);
    }
    FaithfulByParts(Quote, QuoteInner);
  }

  // ---------------------------------------------------------------------------------------------
  // Numbers

  function DigitCount(t: Text): (n: nat)
    ensures n <= |t|
    ensures forall i | 0 <= i < n :: Digit(t[i])
    ensures n < |t| ==> !Digit(t[n])
  {
    if t != [] && Digit(t[0]) then 1 + DigitCount(t[1..]) else 0
  }

  predicate ExponentTail(t: Text) {
    t == [] ||
    ((t[0] == 'e' as int || t[0] == 'E' as int) &&
     var d := if |t| > 1 && (t[1] == '+' as int || t[1] == '-' as int) then t[2..] else t[1..];
     d != [] && DigitCount(d) == |d|)
  }

  predicate FractionTail(t: Text) {
    if t != [] && t[0] == '.' as int then
      var n := DigitCount(t[1..]);
      n > 0 && ExponentTail(t[1..][n..])
    else ExponentTail(t)
  }

  /** The number grammar of JSON (section 6 of RFC 8259). */
  predicate NumberToken(t: Text) {
    var a := if t != [] && t[0] == '-' as int then t[1..] else t;
    var n := DigitCount(a);
    n > 0 && (n == 1 || a[0] != '0' as int) && FractionTail(a[n..])
  }

  predicate NumberUnit(u: Unit) {
    Digit(u) || u == '-' as int || u == '+' as int || u == '.' as int || u == 'e' as int || u == 'E' as int
  }

  function NumberCount(t: Text): (n: nat)
    ensures n <= |t|
  {
    if t != [] && NumberUnit(t[0]) then 1 + NumberCount(t[1..]) else 0
  }

  ghost predicate AllNumberUnits(t: Text) {
    forall i | 0 <= i < |t| :: NumberUnit(t[i])
  }

  lemma AllNumberUnitsConcat(a: Text, b: Text)
    requires AllNumberUnits(a) && AllNumberUnits(b)
    ensures AllNumberUnits(a + b)
  {
  }

  lemma UnsignedUnits(a: Text, n: nat)
    requires n == DigitCount(a) && FractionTail(a[n..])
    ensures AllNumberUnits(a)
  {
    FractionTailUnits(a[n..]);
    AllNumberUnitsConcat(a[..n], a[n..]);
    assert a == a[..n] + a[n..];
  }

  lemma NumberTokenUnits(t: Text)
    requires NumberToken(t)
    ensures t != [] && AllNumberUnits(t)
    ensures t[0] == '-' as int || Digit(t[0])
  {
    if t[0] == '-' as int {
      UnsignedUnits(t[1..], DigitCount(t[1..]));
      AllNumberUnitsConcat([t[0]], t[1..]);
      assert t == [t[0]] + t[1..];
    } else {
      UnsignedUnits(t, DigitCount(t));
    }
  }

  lemma FractionTailUnits(t: Text)
    requires FractionTail(t)
    ensures AllNumberUnits(t)
  {
    if t != [] && t[0] == '.' as int {
      var b := t[1..];
      var n := DigitCount(b);
      ExponentTailUnits(b[n..]);
      forall i | 0 <= i < |t| ensures NumberUnit(t[i]) {
        if i > n { assert t[i] == b[n..][i - 1 - n]; } else if i > 0 { assert t[i] == b[i - 1]; }
      }
    } else {
      ExponentTailUnits(t);
    }
  }

  lemma ExponentTailUnits(t: Text)
    requires ExponentTail(t)
    ensures AllNumberUnits(t)
  {
    if t != [] {
      var d := if |t| > 1 && (t[1] == '+' as int || t[1] == '-' as int) then t[2..] else t[1..];
      forall i | 0 <= i < |t| ensures NumberUnit(t[i]) {
        if i >= |t| - |d| { assert t[i] == d[i - (|t| - |d|)]; }
      }
    }
  }

  /** What may follow a number token without being taken for a part of it. */
  predicate Delimited(rest: Text) {
    rest == [] || !NumberUnit(rest[0])
  }

  lemma {:induction false} NumberCountExact(t: Text, rest: Text)
    requires AllNumberUnits(t) && Delimited(rest)
    ensures NumberCount(t + rest) == |t|
  {
    if t == [] {
      assert t + rest == rest;
    } else {
      assert (t + rest)[1..] == t[1..] + rest;
      NumberCountExact(t[1..], rest);
    }
  }

  // ---------------------------------------------------------------------------------------------
  // Object members

  function Decimal(t: Text): (n: int) {
    if t == [] then 0 else Decimal(t[..|t| - 1]) * 10 + (t[|t| - 1] - '0' as int)
  }

  /** Array-index keys enumerate first, in ascending order (section 10.1.11.1 of ECMA-262). */
  predicate IndexKey(k: Text) {
    k != [] && DigitCount(k) == |k| && (|k| == 1 || k[0] != '0' as int) && Decimal(k) < 0xFFFF_FFFF
  }

  predicate HasKey(ms: seq<Member>, k: Text) {
    exists i :: 0 <= i < |ms| && ms[i].key == k
  }

  /** What property lookup gives. */
  function Get(ms: seq<Member>, k: Text): (r: Option<Value>)
    ensures r.Some? <==> HasKey(ms, k)
    ensures r.Some? ==> Member(k, r.value) in ms
  {
    if ms == [] then None
    else if ms[0].key == k then Some(ms[0].value)
    else
      var r := Get(ms[1..], k);
      assert forall i | 0 <= i < |ms[1..]| :: ms[1..][i] == ms[i + 1];
      assert HasKey(ms, k) ==> HasKey(ms[1..], k) by {
        if HasKey(ms, k) {
          var i :| 0 <= i < |ms| && ms[i].key == k;
          assert ms[1..][i - 1].key == k;
        }
      }
      r
  }

  /** Enumeration order of an ordinary object: distinct keys, index keys first and ascending. */
  ghost predicate Enumerated(ms: seq<Member>) {
    forall i, j | 0 <= i < j < |ms| ::
      ms[i].key != ms[j].key &&
      (IndexKey(ms[j].key) ==> IndexKey(ms[i].key) && Decimal(ms[i].key) < Decimal(ms[j].key))
  }

  function Insert(ms: seq<Member>, m: Member): (r: seq<Member>) {
    if ms == [] then [m]
    else if IndexKey(m.key) && (!IndexKey(ms[0].key) || Decimal(m.key) < Decimal(ms[0].key)) then [m] + ms
    else [ms[0]] + Insert(ms[1..], m)
  }

  function Overwrite(ms: seq<Member>, m: Member): (r: seq<Member>) {
    if ms == [] then [] else [if ms[0].key == m.key then m else ms[0]] + Overwrite(ms[1..], m)
  }

  /** Defining a property: an existing key keeps its place, a new one takes its enumeration place. */
  function Put(ms: seq<Member>, m: Member): (r: seq<Member>) {
    if HasKey(ms, m.key) then Overwrite(ms, m) else Insert(ms, m)
  }

  /** The object made by defining the listed properties one after another. */
  function Build(raw: seq<Member>): (r: seq<Member>) {
    if raw == [] then [] else Put(Build(raw[..|raw| - 1]), raw[|raw| - 1])
  }

  lemma {:induction false} InsertLast(ms: seq<Member>, m: Member)
    requires Enumerated(ms + [m])
    ensures Insert(ms, m) == ms + [m]
  {
    if ms != [] {
      var all := ms + [m];
      assert all[0] == ms[0] && all[|ms|] == m;
      assert ms[1..] + [m] == all[1..];
      InsertLast(ms[1..], m);
    }
  }

  lemma {:induction false} BuildKeepsEnumerated(ms: seq<Member>)
    requires Enumerated(ms)
    ensures Build(ms) == ms
  {
    if ms != [] {
      var init, last := ms[..|ms| - 1], ms[|ms| - 1];
      assert init + [last] == ms;
      BuildKeepsEnumerated(init);
      forall i | 0 <= i < |init| ensures init[i].key != last.key {
        assert ms[i].key != ms[|ms| - 1].key;
      }
      InsertLast(init, last);
    }
  }

  // ---------------------------------------------------------------------------------------------
  // Printing

  /** `JSON.stringify` of a value inside an array or object; `Undefined` prints as `null`. */
  function Print(v: Value, q: Text -> Text): (t: Text) {
    match v
    case Undefined => Ascii("null")
    case Null => Ascii("null")
    case Bool(b) => if b then Ascii("true") else Ascii("false")
    case Num(token) => token
    case Str(s) => q(s)
    case Arr(items) => ['[' as int] + PrintItems(items, q) + [']' as int]
    case Obj(ms) => ['{' as int] + PrintMembers(ms, q) + ['}' as int]
  }

  function PrintItems(items: seq<Value>, q: Text -> Text): (t: Text) {
    if items == [] then []
    else if |items| == 1 then Print(items[0], q)
    else Print(items[0], q) + [',' as int] + PrintItems(items[1..], q)
  }

  function PrintMember(m: Member, q: Text -> Text): (t: Text) {
    q(m.key) + [':' as int] + Print(m.value, q)
  }

  function PrintMembers(ms: seq<Member>, q: Text -> Text): (t: Text) {
    if ms == [] then []
    else if |ms| == 1 then PrintMember(ms[0], q)
    else PrintMember(ms[0], q) + [',' as int] + PrintMembers(ms[1..], q)
  }

  // ---------------------------------------------------------------------------------------------
  // Parsing

  predicate Space(u: Unit) {
    u == 0x20 || u == 0x09 || u == NEWLINE || u == RETURN
  }

  function SkipSpace(t: Text): (r: Text)
    ensures |r| <= |t|
  {
    if t != [] && Space(t[0]) then SkipSpace(t[1..]) else t
  }

  function ParseAtom(t: Text): (r: Option<(Value, Text)>)
    requires t != []
    ensures r.Some? ==> |r.value.1| < |t|
  {
    if Ascii("null") <= t then Some((Null, t[4..]))
    else if Ascii("true") <= t then Some((Bool(true), t[4..]))
    else if Ascii("false") <= t then Some((Bool(false), t[5..]))
    else
      var n := NumberCount(t);
      if NumberToken(t[..n]) then
        NumberTokenUnits(t[..n]);
        Some((Num(t[..n]), t[n..]))
      else None
  }

  function ParseString(t: Text): (r: Option<(Value, Text)>)
    requires t != []
    ensures r.Some? ==> |r.value.1| < |t|
  {
    match DecodeBody(t[1..])
    case None => None
    case Some((s, rest)) => Some((Str(s), rest))
  }

  function ParseValue(text: Text): (r: Option<(Value, Text)>)
    ensures r.Some? ==> |r.value.1| < |text|
    decreases |text|, 2
  {
    var t := SkipSpace(text);
    if t == [] then None
    else if t[0] == QUOTE then ParseString(t)
    else if t[0] == '[' as int then ParseArray(t)
    else if t[0] == '{' as int then ParseObject(t)
    else ParseAtom(t)
  }

  function ParseArray(t: Text): (r: Option<(Value, Text)>)
    requires t != []
    ensures r.Some? ==> |r.value.1| < |t|
    decreases |t|, 0
  {
    var u := SkipSpace(t[1..]);
    if u != [] && u[0] == ']' as int then Some((Arr([]), u[1..]))
    else
      match ParseItems(t[1..])
      case None => None
      case Some((items, rest)) => Some((Arr(items), rest))
  }

  function ParseObject(t: Text): (r: Option<(Value, Text)>)
    requires t != []
    ensures r.Some? ==> |r.value.1| < |t|
    decreases |t|, 0
  {
    var u := SkipSpace(t[1..]);
    if u != [] && u[0] == '}' as int then Some((Obj([]), u[1..]))
    else
      match ParseMembers(t[1..])
      case None => None
      case Some((ms, rest)) => Some((Obj(Build(ms)), rest))
  }

  /** The items of an array and its closing bracket. */
  function ParseItems(t: Text): (r: Option<(seq<Value>, Text)>)
    ensures r.Some? ==> |r.value.1| < |t|
    decreases |t|, 3
  {
    match ParseValue(t)
    case None => None
    case Some((v, after)) =>
      var u := SkipSpace(after);
      if u == [] then None
      else if u[0] == ']' as int then Some(([v], u[1..]))
      else if u[0] != ',' as int then None
      else
        match ParseItems(u[1..])
        case None => None
        case Some((items, rest)) => Some(([v] + items, rest))
  }

  function ParseKey(text: Text): (r: Option<(Text, Text)>)
    ensures r.Some? ==> |r.value.1| < |text|
  {
    var t := SkipSpace(text);
    if t == [] || t[0] != QUOTE then None
    else
      match DecodeBody(t[1..])
      case None => None
      case Some((k, after)) =>
        var u := SkipSpace(after);
        if u == [] || u[0] != ':' as int then None else Some((k, u[1..]))
  }

  /** The members of an object as they are written, and its closing brace. */
  function ParseMembers(t: Text): (r: Option<(seq<Member>, Text)>)
    ensures r.Some? ==> |r.value.1| < |t|
    decreases |t|, 3
  {
    match ParseKey(t)
    case None => None
    case Some((k, after)) =>
      match ParseValue(after)
      case None => None
      case Some((v, next)) =>
        var u := SkipSpace(next);
        if u == [] then None
        else if u[0] == '}' as int then Some(([Member(k, v)], u[1..]))
        else if u[0] != ',' as int then None
        else
          match ParseMembers(u[1..])
          case None => None
          case Some((ms, rest)) => Some(([Member(k, v)] + ms, rest))
  }

  /** `JSON.parse`. */
  function Parse(text: Text): (r: Option<Value>) {
    match ParseValue(text)
    case None => None
    case Some((v, rest)) => if SkipSpace(rest) == [] then Some(v) else None
  }

  // ---------------------------------------------------------------------------------------------
  // Reading back what was printed

  /** A value of the JSON data model, its objects in enumeration order. */
  ghost predicate Plain(v: Value) {
    match v
    case Undefined => false
    case Null => true
    case Bool(_) => true
    case Num(token) => NumberToken(token)
    case Str(_) => true
    case Arr(items) => PlainItems(items)
    case Obj(ms) => Enumerated(ms) && PlainMembers(ms)
  }

  ghost predicate PlainItems(items: seq<Value>) {
    items == [] || (Plain(items[0]) && PlainItems(items[1..]))
  }

  ghost predicate PlainMembers(ms: seq<Member>) {
    ms == [] || (Plain(ms[0].value) && PlainMembers(ms[1..]))
  }

  /** The first unit of a printed value, which decides how it is read. */
  ghost predicate StartsValue(t: Text) {
    t != [] && !Space(t[0]) && t[0] != ']' as int && t[0] != '}' as int
  }

  lemma PrintStarts(v: Value, q: Text -> Text, rest: Text)
    requires Faithful(q) && Plain(v)
    ensures StartsValue(Print(v, q) + rest)
  {
    match v
    case Null =>
    case Bool(b) =>
    case Num(token) => NumberTokenUnits(token);
    case Str(s) => assert q(s) + rest == q(s) + rest;
    case Arr(items) =>
    case Obj(ms) =>
  }

  lemma PrintedString(s: Text, q: Text -> Text, rest: Text)
    requires Faithful(q)
    ensures ParseValue(q(s) + rest) == Some((Str(s), rest))
  {
    var t := q(s) + rest;
    assert SkipSpace(t) == t;
  }

  lemma PrintedEmpty(rest: Text)
    ensures ParseValue(['[' as int] + [] + [']' as int] + rest) == Some((Arr([]), rest))
    ensures ParseValue(['{' as int] + [] + ['}' as int] + rest) == Some((Obj([]), rest))
  {
    var a, o := ['[' as int] + [] + [']' as int] + rest, ['{' as int] + [] + ['}' as int] + rest;
    assert SkipSpace(a) == a && SkipSpace(a[1..]) == a[1..] && a[1..][1..] == rest;
    assert SkipSpace(o) == o && SkipSpace(o[1..]) == o[1..] && o[1..][1..] == rest;
  }

  lemma PrintedArray(items: seq<Value>, inner: Text, rest: Text)
    requires StartsValue(inner) && ParseItems(inner + ([']' as int] + rest)) == Some((items, rest))
    ensures ParseValue(['[' as int] + inner + [']' as int] + rest) == Some((Arr(items), rest))
  {
    var u := inner + ([']' as int] + rest);
    var t := ['[' as int] + u;
    Assoc(['[' as int] + inner, [']' as int], rest);
    Assoc(['[' as int], inner, [']' as int] + rest);
    assert t[1..] == u && SkipSpace(t) == t && SkipSpace(u) == u;
  }

  lemma PrintedObject(ms: seq<Member>, inner: Text, rest: Text)
    requires StartsValue(inner) && ParseMembers(inner + (['}' as int] + rest)) == Some((ms, rest))
    ensures ParseValue(['{' as int] + inner + ['}' as int] + rest) == Some((Obj(Build(ms)), rest))
  {
    var u := inner + (['}' as int] + rest);
    var t := ['{' as int] + u;
    Assoc(['{' as int] + inner, ['}' as int], rest);
    Assoc(['{' as int], inner, ['}' as int] + rest);
    assert t[1..] == u && SkipSpace(t) == t && SkipSpace(u) == u;
  }

  lemma ReadNull(rest: Text)
    ensures ParseValue(Ascii("null") + rest) == Some((Null, rest))
  {
    var t := Ascii("null") + rest;
    assert t[0] == 'n' as int;
    assert SkipSpace(t) == t && Ascii("null") <= t && t[4..] == rest;
  }

  lemma ReadBool(b: bool, rest: Text)
    ensures ParseValue((if b then Ascii("true") else Ascii("false")) + rest) == Some((Bool(b), rest))
  {
    var w := if b then Ascii("true") else Ascii("false");
    var t := w + rest;
    assert t[0] == (if b then 't' else 'f') as int;
    assert Ascii("null")[0] == 'n' as int && Ascii("true")[0] == 't' as int;
    assert SkipSpace(t) == t && w <= t && t[|w|..] == rest;
  }

  lemma ReadNumber(token: Text, rest: Text)
    requires NumberToken(token) && Delimited(rest)
    ensures ParseValue(token + rest) == Some((Num(token), rest))
  {
    var t := token + rest;
    NumberTokenUnits(token);
    NumberCountExact(token, rest);
    assert t[..|token|] == token && t[|token|..] == rest;
    assert t[0] == token[0];
    assert Ascii("null")[0] == 'n' as int && Ascii("true")[0] == 't' as int && Ascii("false")[0] == 'f' as int;
    assert SkipSpace(t) == t;
  }

  lemma {:induction false} ParsePrint(v: Value, q: Text -> Text, rest: Text)
    requires Faithful(q) && Plain(v) && Delimited(rest)
    ensures ParseValue(Print(v, q) + rest) == Some((v, rest))
    decreases v, 0
  {
    match v
    case Null => ReadNull(rest);
    case Bool(b) => ReadBool(b, rest);
    case Num(token) => ReadNumber(token, rest);
    case Str(s) => PrintedString(s, q, rest);
    case Arr(items) =>
      if items == [] {
        PrintedEmpty(rest);
      } else {
        ItemsStart(items, q);
        ParsePrintItems(items, q, rest);
        PrintedArray(items, PrintItems(items, q), rest);
      }
    case Obj(ms) =>
      if ms == [] {
        PrintedEmpty(rest);
      } else {
        MembersStart(ms, q);
        ParsePrintMembers(ms, q, rest);
        PrintedObject(ms, PrintMembers(ms, q), rest);
        BuildKeepsEnumerated(ms);
      }
  }

  lemma ItemsStart(items: seq<Value>, q: Text -> Text)
    requires Faithful(q) && items != [] && Plain(items[0])
    ensures StartsValue(PrintItems(items, q))
  {
    PrintStarts(items[0], q, []);
    assert Print(items[0], q) + [] == Print(items[0], q);
  }

  lemma MembersStart(ms: seq<Member>, q: Text -> Text)
    requires Faithful(q) && ms != []
    ensures StartsValue(PrintMembers(ms, q))
  {
    var k := ms[0].key;
    assert q(k) + [] == q(k);
  }

  lemma ReadLastItem(t: Text, v: Value, rest: Text)
    requires ParseValue(t) == Some((v, [']' as int] + rest))
    ensures ParseItems(t) == Some(([v], rest))
  {
    var u := [']' as int] + rest;
    assert SkipSpace(u) == u && u[1..] == rest;
  }

  lemma ReadItem(t: Text, v: Value, more: Text, items: seq<Value>, rest: Text)
    requires ParseValue(t) == Some((v, [',' as int] + more))
    requires ParseItems(more) == Some((items, rest))
    ensures ParseItems(t) == Some(([v] + items, rest))
  {
    var u := [',' as int] + more;
    assert SkipSpace(u) == u && u[1..] == more;
  }

  lemma PrintItemsSplit(items: seq<Value>, q: Text -> Text, close: Text)
    requires |items| > 1
    ensures PrintItems(items, q) + close ==
            Print(items[0], q) + ([',' as int] + (PrintItems(items[1..], q) + close))
  {
    var first, more := Print(items[0], q), PrintItems(items[1..], q);
    Assoc(first + [',' as int], more, close);
    Assoc(first, [',' as int], more + close);
  }

  lemma {:induction false} ParsePrintItems(items: seq<Value>, q: Text -> Text, rest: Text)
    requires Faithful(q) && items != [] && PlainItems(items)
    ensures ParseItems(PrintItems(items, q) + ([']' as int] + rest)) == Some((items, rest))
    decreases items, 1
  {
    var close := [']' as int] + rest;
    if |items| == 1 {
      ParsePrint(items[0], q, close);
      ReadLastItem(Print(items[0], q) + close, items[0], rest);
      assert items == [items[0]];
    } else {
      var more := PrintItems(items[1..], q) + close;
      PrintItemsSplit(items, q, close);
      ParsePrint(items[0], q, [',' as int] + more);
      ParsePrintItems(items[1..], q, rest);
      ReadItem(PrintItems(items, q) + close, items[0], more, items[1..], rest);
      assert items == [items[0]] + items[1..];
    }
  }

  lemma ParsePrintKey(k: Text, q: Text -> Text, rest: Text)
    requires Faithful(q)
    ensures ParseKey(q(k) + ([':' as int] + rest)) == Some((k, rest))
  {
    var colon := [':' as int] + rest;
    var t := q(k) + colon;
    assert t[0] == QUOTE;
    assert SkipSpace(t) == t;
    assert colon[1..] == rest;
  }

  lemma ReadLastMember(t: Text, m: Member, body: Text, rest: Text)
    requires ParseKey(t) == Some((m.key, body))
    requires ParseValue(body) == Some((m.value, ['}' as int] + rest))
    ensures ParseMembers(t) == Some(([m], rest))
  {
    var u := ['}' as int] + rest;
    assert SkipSpace(u) == u && u[1..] == rest;
  }

  lemma ReadMember(t: Text, m: Member, body: Text, more: Text, ms: seq<Member>, rest: Text)
    requires ParseKey(t) == Some((m.key, body))
    requires ParseValue(body) == Some((m.value, [',' as int] + more))
    requires ParseMembers(more) == Some((ms, rest))
    ensures ParseMembers(t) == Some(([m] + ms, rest))
  {
    var u := [',' as int] + more;
    assert SkipSpace(u) == u && u[1..] == more;
  }

  lemma PrintMemberSplit(m: Member, q: Text -> Text, after: Text)
    ensures PrintMember(m, q) + after == q(m.key) + ([':' as int] + (Print(m.value, q) + after))
  {
    Assoc(q(m.key) + [':' as int], Print(m.value, q), after);
    Assoc(q(m.key), [':' as int], Print(m.value, q) + after);
  }

  lemma PrintMembersSplit(ms: seq<Member>, q: Text -> Text, close: Text)
    requires |ms| > 1
    ensures PrintMembers(ms, q) + close ==
            PrintMember(ms[0], q) + ([',' as int] + (PrintMembers(ms[1..], q) + close))
  {
    var first, more := PrintMember(ms[0], q), PrintMembers(ms[1..], q);
    Assoc(first + [',' as int], more, close);
    Assoc(first, [',' as int], more + close);
  }

  lemma ParsePrintMember(m: Member, q: Text -> Text, after: Text)
    requires Faithful(q) && ParseValue(Print(m.value, q) + after) == Some((m.value, after))
    ensures ParseKey(PrintMember(m, q) + after) == Some((m.key, Print(m.value, q) + after))
  {
    PrintMemberSplit(m, q, after);
    ParsePrintKey(m.key, q, Print(m.value, q) + after);
  }

  lemma MembersEnd(m: Member, q: Text -> Text, rest: Text)
    requires Faithful(q)
    requires ParseValue(Print(m.value, q) + (['}' as int] + rest)) == Some((m.value, ['}' as int] + rest))
    ensures ParseMembers(PrintMembers([m], q) + (['}' as int] + rest)) == Some(([m], rest))
  {
    var close := ['}' as int] + rest;
    ParsePrintMember(m, q, close);
    ReadLastMember(PrintMember(m, q) + close, m, Print(m.value, q) + close, rest);
  }

  lemma MembersMore(ms: seq<Member>, q: Text -> Text, more: Text, close: Text, rest: Text)
    requires Faithful(q) && |ms| > 1
    requires more == PrintMembers(ms[1..], q) + close
    requires ParseValue(Print(ms[0].value, q) + ([',' as int] + more)) == Some((ms[0].value, [',' as int] + more))
    requires ParseMembers(more) == Some((ms[1..], rest))
    ensures ParseMembers(PrintMembers(ms, q) + close) == Some((ms, rest))
  {
    var after := [',' as int] + more;
    PrintMembersSplit(ms, q, close);
    ParsePrintMember(ms[0], q, after);
    ReadMember(PrintMembers(ms, q) + close, ms[0], Print(ms[0].value, q) + after, more, ms[1..], rest);
    assert ms == [ms[0]] + ms[1..];
  }

  lemma {:induction false} ParsePrintMembers(ms: seq<Member>, q: Text -> Text, rest: Text)
    requires Faithful(q) && ms != [] && PlainMembers(ms)
    ensures ParseMembers(PrintMembers(ms, q) + (['}' as int] + rest)) == Some((ms, rest))
    decreases ms, 1
  {
    var close := ['}' as int] + rest;
    if |ms| == 1 {
      ParsePrint(ms[0].value, q, close);
      MembersEnd(ms[0], q, rest);
      assert ms == [ms[0]];
    } else {
      var more := PrintMembers(ms[1..], q) + close;
      ParsePrint(ms[0].value, q, [',' as int] + more);
      ParsePrintMembers(ms[1..], q, rest);
      MembersMore(ms, q, more, close, rest);
    }
  }

  /** Whatever faithful quoter printed it, a value reads back. */
  lemma RoundTrip(v: Value, q: Text -> Text)
    requires Faithful(q) && Plain(v)
    ensures Parse(Print(v, q)) == Some(v)
  {
    assert Print(v, q) + [] == Print(v, q);
    ParsePrint(v, q, []);
  }
}
