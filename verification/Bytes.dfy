/** Bytes, NUL-terminated strings and the fixed-width integers of the C sources. */
module Bytes {
  type byte = x: int | 0 <= x < 256
  type bytes = seq<byte>

  datatype Option<+T> = None | Some(value: T)

  const INT_MAX := 0x7FFF_FFFF
  const INT_MIN := -0x8000_0000

  predicate IsInt32(n: int) { INT_MIN <= n <= INT_MAX }

  const QUOTE: byte := 34
  const BACKSLASH: byte := 92
  const SLASH: byte := 47
  const COMMA: byte := 44
  const COLON: byte := 58
  const MINUS: byte := 45
  const PLUS: byte := 43
  const POINT: byte := 46
  const LBRACKET: byte := 91
  const RBRACKET: byte := 93
  const LBRACE: byte := 123
  const RBRACE: byte := 125
  const SPACE: byte := 32
  const TAB: byte := 9
  const NEWLINE: byte := 10
  const LETTER_U: byte := 117

  /** `t` is what `c` holds from `off` on. */
  predicate At(c: bytes, off: nat, t: bytes) {
    off + |t| <= |c| && c[off..off + |t|] == t
  }

  predicate NulFree(s: bytes) { forall i :: 0 <= i < |s| ==> s[i] != 0 }

  /** What a C reader sees of a buffer: everything before its first NUL. */
  function CString(s: bytes): (t: bytes)
    ensures NulFree(t) && t <= s
    ensures |t| < |s| ==> s[|t|] == 0
  {
    if s == [] || s[0] == 0 then [] else [s[0]] + CString(s[1..])
  }

  lemma {:induction false} CStringOfNulFree(s: bytes)
    requires NulFree(s)
    ensures CString(s) == s
  {}

  lemma {:induction false} CStringOfPrefix(s: bytes, n: nat)
    requires n < |s| && s[n] == 0
    ensures CString(s) == CString(s[..n])
  {}

  lemma Regroup<T>(a: seq<T>, b: seq<T>, c: seq<T>)
    ensures (a + b) + c == a + (b + c)
  {}

  lemma AtConcat(c: bytes, off: nat, s: bytes, t: bytes)
    ensures At(c, off, s + t) <==> At(c, off, s) && At(c, off + |s|, t)
  {
    if At(c, off, s + t) {
      assert c[off..off + |s|] == c[off..off + |s + t|][..|s|] == s;
      assert c[off + |s|..off + |s| + |t|] == c[off..off + |s + t|][|s|..] == t;
    }
    if At(c, off, s) && At(c, off + |s|, t) {
      assert c[off..off + |s + t|] == c[off..off + |s|] + c[off + |s|..off + |s| + |t|];
    }
  }

  lemma AtFirst(c: bytes, off: nat, t: bytes)
    requires At(c, off, t) && t != []
    ensures off < |c| && c[off] == t[0]
  {}
}
