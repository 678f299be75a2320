/** WTF-8, the byte form of JavaScript strings: surrogate pairs merge, lone surrogates keep three bytes. */
module Wtf8 {
  import opened Basics
  import opened Utf16

  type Byte = b: int | 0 <= b < 256
  type Point = p: int | 0 <= p <= 0x10_FFFF

  /** The code point at the front of a text. */
  function FirstPoint(t: Text): (p: Point)
    requires t != []
  {
    if PairAt(t, 0) then 0x1_0000 + (t[0] as int - 0xD800) * 1024 + (t[1] as int - 0xDC00) else t[0]
  }

  function FirstWidth(t: Text): (n: nat)
    requires t != []
    ensures 1 <= n <= |t|
  {
    if PairAt(t, 0) then 2 else 1
  }

  function EncodePoint(p: Point): (b: seq<Byte>)
    ensures 1 <= |b| <= 4
  {
    if p < 0x80 then [p]
    else if p < 0x800 then [0xC0 + p / 64, 0x80 + p % 64]
    else if p < 0x1_0000 then [0xE0 + p / 4096, 0x80 + p / 64 % 64, 0x80 + p % 64]
    else [0xF0 + p / 262144, 0x80 + p / 4096 % 64, 0x80 + p / 64 % 64, 0x80 + p % 64]
  }

  function Encode(t: Text): (b: seq<Byte>) {
    if t == [] then [] else EncodePoint(FirstPoint(t)) + Encode(t[FirstWidth(t)..])
  }

  predicate Continuation(b: Byte) {
    0x80 <= b < 0xC0
  }

  /** One code point and its length, refusing truncation, overlong forms and points out of range. */
  function DecodePoint(b: seq<Byte>): (r: Option<(Point, nat)>)
    ensures r.Some? ==> 1 <= r.value.1 <= |b|
  {
    if b == [] then None
    else if b[0] < 0x80 then Some((b[0], 1))
    else if 0xC2 <= b[0] <= 0xDF then
      if |b| < 2 || !Continuation(b[1]) then None
      else Some(((b[0] as int - 0xC0) * 64 + (b[1] as int - 0x80), 2))
    else if 0xE0 <= b[0] <= 0xEF then
      if |b| < 3 || !Continuation(b[1]) || !Continuation(b[2]) then None
      else
        var p := (b[0] as int - 0xE0) * 4096 + (b[1] as int - 0x80) * 64 + (b[2] as int - 0x80);
        if p < 0x800 then None else Some((p, 3))
    else if 0xF0 <= b[0] <= 0xF4 then
      if |b| < 4 || !Continuation(b[1]) || !Continuation(b[2]) || !Continuation(b[3]) then None
      else
        var p := (b[0] as int - 0xF0) * 262144 + (b[1] as int - 0x80) * 4096 + (b[2] as int - 0x80) * 64 +
                 (b[3] as int - 0x80);
        if p < 0x1_0000 || p > 0x10_FFFF then None else Some((p, 4))
    else None
  }

  function FromPoint(p: Point): (t: Text)
    ensures 1 <= |t| <= 2
  {
    if p >= 0x1_0000 then [0xD800 + (p - 0x1_0000) / 1024, 0xDC00 + (p - 0x1_0000) % 1024] else [p]
  }

  /** `afterLead`: the previous code point was a lone high surrogate, so a low one may not follow. */
  function Decode(b: seq<Byte>, afterLead: bool): (r: Option<Text>) {
    if b == [] then Some([])
    else
      match DecodePoint(b)
      case None => None
      case Some((p, n)) =>
        if afterLead && 0xDC00 <= p <= 0xDFFF then None
        else
          match Decode(b[n..], 0xD800 <= p <= 0xDBFF)
          case None => None
          case Some(t) => Some(FromPoint(p) + t)
  }

  lemma DecodeTwo(p: Point, rest: seq<Byte>)
    requires 0x80 <= p < 0x800
    ensures DecodePoint(EncodePoint(p) + rest) == Some((p, 2))
  {
    var b := EncodePoint(p) + rest;
    assert b[0] == 0xC0 + p / 64 && b[1] == 0x80 + p % 64;
  }

  lemma DecodeThree(p: Point, rest: seq<Byte>)
    requires 0x800 <= p < 0x1_0000
    ensures DecodePoint(EncodePoint(p) + rest) == Some((p, 3))
  {
    var b := EncodePoint(p) + rest;
    var h := p / 64;
    assert p / 4096 == h / 64;
    assert b[0] == 0xE0 + h / 64 && b[1] == 0x80 + h % 64 && b[2] == 0x80 + p % 64;
  }

  lemma DecodeFour(p: Point, rest: seq<Byte>)
    requires 0x1_0000 <= p
    ensures DecodePoint(EncodePoint(p) + rest) == Some((p, 4))
  {
    var b := EncodePoint(p) + rest;
    var h := p / 64;
    var g := h / 64;
    assert p / 4096 == g && p / 262144 == g / 64;
    assert b[0] == 0xF0 + g / 64 && b[1] == 0x80 + g % 64 && b[2] == 0x80 + h % 64 && b[3] == 0x80 + p % 64;
  }

  lemma DecodeEncodePoint(p: Point, rest: seq<Byte>)
    ensures DecodePoint(EncodePoint(p) + rest) == Some((p, |EncodePoint(p)|))
  {
    if p < 0x80 {
      assert (EncodePoint(p) + rest)[0] == p;
    } else if p < 0x800 {
      DecodeTwo(p, rest);
    } else if p < 0x1_0000 {
      DecodeThree(p, rest);
    } else {
      DecodeFour(p, rest);
    }
  }

  lemma FirstPointFacts(t: Text)
    requires t != []
    ensures FromPoint(FirstPoint(t)) == t[..FirstWidth(t)]
    ensures 0xD800 <= FirstPoint(t) <= 0xDBFF ==> FirstWidth(t) == 1 && (|t| > 1 ==> !Low(t[1]))
    ensures 0xDC00 <= FirstPoint(t) <= 0xDFFF ==> Low(t[0])
  {
  }

  lemma DecodeStep(p: Point, rest: seq<Byte>, afterLead: bool)
    requires afterLead ==> !(0xDC00 <= p <= 0xDFFF)
    ensures Decode(EncodePoint(p) + rest, afterLead) ==
            match Decode(rest, 0xD800 <= p <= 0xDBFF)
            case None => None
            case Some(t) => Some(FromPoint(p) + t)
  {
    DecodeEncodePoint(p, rest);
    assert (EncodePoint(p) + rest)[|EncodePoint(p)|..] == rest;
  }

  lemma DecodeText(t: Text, afterLead: bool)
    requires t != [] && (afterLead ==> !Low(t[0]))
    requires var p, n := FirstPoint(t), FirstWidth(t); Decode(Encode(t[n..]), 0xD800 <= p <= 0xDBFF) == Some(t[n..])
    ensures Decode(Encode(t), afterLead) == Some(t)
  {
    var p, n := FirstPoint(t), FirstWidth(t);
    FirstPointFacts(t);
    DecodeStep(p, Encode(t[n..]), afterLead);
    assert t[..n] + t[n..] == t;
  }

  /** Every text comes back from its bytes, lone surrogates included. */
  lemma {:induction false} DecodeEncode(t: Text, afterLead: bool)
    requires afterLead && t != [] ==> !Low(t[0])
    ensures Decode(Encode(t), afterLead) == Some(t)
  {
    if t != [] {
      var p, n := FirstPoint(t), FirstWidth(t);
      FirstPointFacts(t);
      DecodeEncode(t[n..], 0xD800 <= p <= 0xDBFF);
      DecodeText(t, afterLead);
    }
  }

  lemma EncodeInjective(a: Text, b: Text)
    requires Encode(a) == Encode(b)
    ensures a == b
  {
    DecodeEncode(a, false);
    DecodeEncode(b, false);
  }

  /** Splitting a text anywhere but inside a surrogate pair splits its bytes. */
  lemma {:induction false} EncodeConcat(a: Text, b: Text)
    requires a == [] || b == [] || !(High(a[|a| - 1]) && Low(b[0]))
    ensures Encode(a + b) == Encode(a) + Encode(b)
  {
    if a == [] {
      assert a + b == b;
    } else {
      var n := FirstWidth(a);
      assert FirstWidth(a + b) == n && FirstPoint(a + b) == FirstPoint(a);
      assert (a + b)[n..] == a[n..] + b;
      EncodeConcat(a[n..], b);
    }
  }

  lemma EncodeDecodeTwo(b: seq<Byte>)
    requires DecodePoint(b).Some? && DecodePoint(b).value.1 == 2
    ensures EncodePoint(DecodePoint(b).value.0) == b[..2]
  {
    Horner(b[0] as int - 0xC0, b[1] as int - 0x80);
  }

  lemma EncodeDecodeThree(b: seq<Byte>)
    requires DecodePoint(b).Some? && DecodePoint(b).value.1 == 3
    ensures EncodePoint(DecodePoint(b).value.0) == b[..3]
  {
    var p := DecodePoint(b).value.0;
    var h := (b[0] as int - 0xE0) * 64 + (b[1] as int - 0x80);
    Horner(b[0] as int - 0xE0, b[1] as int - 0x80);
    Horner(h, b[2] as int - 0x80);
    assert p == h * 64 + (b[2] as int - 0x80);
    assert p / 4096 == h / 64;
  }

  lemma EncodeDecodeFour(b: seq<Byte>)
    requires DecodePoint(b).Some? && DecodePoint(b).value.1 == 4
    ensures EncodePoint(DecodePoint(b).value.0) == b[..4]
  {
    var p := DecodePoint(b).value.0;
    var g := (b[0] as int - 0xF0) * 64 + (b[1] as int - 0x80);
    var h := g * 64 + (b[2] as int - 0x80);
    Horner(b[0] as int - 0xF0, b[1] as int - 0x80);
    Horner(g, b[2] as int - 0x80);
    Horner(h, b[3] as int - 0x80);
    assert p == h * 64 + (b[3] as int - 0x80);
    assert p / 4096 == h / 64 && p / 262144 == g / 64;
  }

  lemma EncodeDecodePoint(b: seq<Byte>)
    requires DecodePoint(b).Some?
    ensures EncodePoint(DecodePoint(b).value.0) == b[..DecodePoint(b).value.1]
  {
    var n := DecodePoint(b).value.1;
    if n == 2 {
      EncodeDecodeTwo(b);
    } else if n == 3 {
      EncodeDecodeThree(b);
    } else if n == 4 {
      EncodeDecodeFour(b);
    }
  }

  lemma Horner(high: int, low: int)
    requires 0 <= low < 64
    ensures (high * 64 + low) / 64 == high && (high * 64 + low) % 64 == low
  {
  }

  lemma PointRebuilds(p: Point, u: Text)
    requires 0xD800 <= p <= 0xDBFF && u != [] ==> !Low(u[0])
    ensures FirstPoint(FromPoint(p) + u) == p && FirstWidth(FromPoint(p) + u) == |FromPoint(p)|
    ensures (FromPoint(p) + u)[|FromPoint(p)|..] == u
    ensures !(0xDC00 <= p <= 0xDFFF) ==> !Low((FromPoint(p) + u)[0])
  {
  }

  lemma DecodeFirst(b: seq<Byte>, afterLead: bool)
    requires b != [] && Decode(b, afterLead).Some?
    ensures DecodePoint(b).Some?
    ensures var (p, n) := DecodePoint(b).value;
      && !(afterLead && 0xDC00 <= p <= 0xDFFF)
      && Decode(b[n..], 0xD800 <= p <= 0xDBFF).Some?
      && Decode(b, afterLead).value == FromPoint(p) + Decode(b[n..], 0xD800 <= p <= 0xDBFF).value
  {
  }

  lemma EncodeFirst(p: Point, u: Text)
    requires 0xD800 <= p <= 0xDBFF && u != [] ==> !Low(u[0])
    ensures Encode(FromPoint(p) + u) == EncodePoint(p) + Encode(u)
    ensures !(0xDC00 <= p <= 0xDFFF) ==> !Low((FromPoint(p) + u)[0])
  {
    PointRebuilds(p, u);
  }

  lemma EncodeStep(b: seq<Byte>, u: Text)
    requires DecodePoint(b).Some?
    requires var (p, n) := DecodePoint(b).value;
      Encode(u) == b[n..] && (0xD800 <= p <= 0xDBFF && u != [] ==> !Low(u[0]))
    ensures var p := DecodePoint(b).value.0;
      Encode(FromPoint(p) + u) == b && (!(0xDC00 <= p <= 0xDFFF) ==> !Low((FromPoint(p) + u)[0]))
  {
    var (p, n) := DecodePoint(b).value;
    EncodeDecodePoint(b);
    EncodeFirst(p, u);
    assert b[..n] + b[n..] == b;
  }

  /** The accepted bytes are exactly the encodings: no text has two accepted byte forms. */
  lemma {:induction false} EncodeDecode(b: seq<Byte>, afterLead: bool)
    requires Decode(b, afterLead).Some?
    ensures Encode(Decode(b, afterLead).value) == b
    ensures afterLead && Decode(b, afterLead).value != [] ==> !Low(Decode(b, afterLead).value[0])
  {
    if b != [] {
      DecodeFirst(b, afterLead);
      var (p, n) := DecodePoint(b).value;
      EncodeDecode(b[n..], 0xD800 <= p <= 0xDBFF);
      EncodeStep(b, Decode(b[n..], 0xD800 <= p <= 0xDBFF).value);
    }
  }
}
