/** The ends of JavaScript strings: `endsWith`, and the white space that `trim` and `trimEnd` take off. */
module TextEnds {
  import opened Utf16

  predicate EndsWith(t: Text, suffix: Text) {
    |suffix| <= |t| && t[|t| - |suffix|..] == suffix
  }

  /** White space and line terminators. */
  predicate Blank(u: Unit) {
    || 0x09 <= u <= 0x0D || u == 0x20 || u == 0xA0 || u == 0x1680 || 0x2000 <= u <= 0x200A
    || u == 0x2028 || u == 0x2029 || u == 0x202F || u == 0x205F || u == 0x3000 || u == 0xFEFF
  }

  function TrimStart(t: Text): Text {
    if t != [] && Blank(t[0]) then TrimStart(t[1..]) else t
  }

  function TrimEnd(t: Text): Text {
    if t != [] && Blank(t[|t| - 1]) then TrimEnd(t[..|t| - 1]) else t
  }

  function Trim(t: Text): Text {
    TrimEnd(TrimStart(t))
  }
}
