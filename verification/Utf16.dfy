/** JavaScript strings: sequences of UTF-16 code units, lone surrogates included. */
module Utf16 {
  type Unit = u: int | 0 <= u < 0x1_0000
  type Text = seq<Unit>

  const QUOTE: Unit := 0x22
  const BACKSLASH: Unit := 0x5C
  const NEWLINE: Unit := 0x0A
  const RETURN: Unit := 0x0D

  predicate High(u: Unit) {
    0xD800 <= u <= 0xDBFF
  }

  predicate Low(u: Unit) {
    0xDC00 <= u <= 0xDFFF
  }

  predicate PairAt(v: Text, i: nat) {
    i + 1 < |v| && High(v[i]) && Low(v[i + 1])
  }

  predicate Digit(u: Unit) {
    '0' as int <= u <= '9' as int
  }

  /** The code units of a source literal; every literal used here is ASCII. */
  function Ascii(s: string): (t: Text) {
    seq(|s|, i requires 0 <= i < |s| => (s[i] as int) % 0x1_0000)
  }

  lemma Assoc(a: Text, b: Text, c: Text)
    ensures a + b + c == a + (b + c)
  {
  }

  lemma TakeSnoc<T>(s: seq<T>, i: nat)
    requires i < |s|
    ensures s[..i + 1] == s[..i] + [s[i]]
  {
  }
}
