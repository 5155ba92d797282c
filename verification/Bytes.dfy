/** Bytes, the character codes the library tests for, and the C-string view of a byte sequence. */
module Bytes {
  type byte = b: int | 0 <= b < 256

  type Text = seq<byte>

  function Least(a: nat, b: nat): nat {
    if a <= b then a else b
  }

  datatype Option<+T> = None | Some(value: T)

  const NUL: byte := 0
  const BS: byte := 8
  const TAB: byte := 9
  const LF: byte := 10
  const FF: byte := 12
  const CR: byte := 13
  const SPACE: byte := 32
  const QUOTE: byte := 34
  const PLUS: byte := 43
  const COMMA: byte := 44
  const MINUS: byte := 45
  const DOT: byte := 46
  const SLASH: byte := 47
  const STAR: byte := 42
  const ZERO: byte := 48
  const NINE: byte := 57
  const COLON: byte := 58
  const LBRACKET: byte := 91
  const BACKSLASH: byte := 92
  const RBRACKET: byte := 93
  const LOWER_B: byte := 98
  const LOWER_E: byte := 101
  const UPPER_E: byte := 69
  const LOWER_F: byte := 102
  const LOWER_N: byte := 110
  const LOWER_R: byte := 114
  const LOWER_T: byte := 116
  const LOWER_U: byte := 117
  const LBRACE: byte := 123
  const RBRACE: byte := 125

  /** The constants are the codes of the characters they are named after. */
  lemma CharacterCodes()
    ensures NUL == '\0' as int && BS == 8 && TAB == '\t' as int && LF == '\n' as int && FF == 12 && CR == '\r' as int
    ensures SPACE == ' ' as int && QUOTE == '"' as int && PLUS == '+' as int && COMMA == ',' as int
    ensures MINUS == '-' as int && DOT == '.' as int && SLASH == '/' as int && STAR == '*' as int
    ensures ZERO == '0' as int && NINE == '9' as int && COLON == ':' as int && BACKSLASH == '\\' as int
    ensures LBRACKET == '[' as int && RBRACKET == ']' as int && LBRACE == '{' as int && RBRACE == '}' as int
    ensures LOWER_B == 'b' as int && LOWER_E == 'e' as int && UPPER_E == 'E' as int && LOWER_F == 'f' as int
    ensures LOWER_N == 'n' as int && LOWER_R == 'r' as int && LOWER_T == 't' as int && LOWER_U == 'u' as int
  {
  }

  /** The bytes of a C string literal, without its terminator. */
  function Lit(s: string): (t: Text)
    requires forall i :: 0 <= i < |s| ==> s[i] as int < 256
    ensures |t| == |s|
    ensures forall i :: 0 <= i < |s| ==> t[i] == s[i] as int
  {
    seq(|s|, i requires 0 <= i < |s| => s[i] as int)
  }

  lemma SliceOf(s: Text, p: nat, e: nat, i: nat, j: nat)
    requires p <= e <= |s| && i <= j <= e - p
    ensures s[p..e][i..j] == s[p + i..p + j]
  {
    var a, b := s[p..e][i..j], s[p + i..p + j];
    forall k | 0 <= k < j - i ensures a[k] == b[k] {
    }
  }

  predicate NulFree(t: Text) {
    forall i :: 0 <= i < |t| ==> t[i] != NUL
  }

  /** What `strlen`-based readers see of a buffer: everything before its first NUL. */
  function CString(t: Text): (r: Text)
    ensures NulFree(r)
    ensures |r| <= |t| && r == t[..|r|]
    ensures |r| < |t| ==> t[|r|] == NUL
  {
    if t == [] || t[0] == NUL then [] else [t[0]] + CString(t[1..])
  }

  lemma {:induction false} CStringOfNulFree(t: Text)
    requires NulFree(t)
    ensures CString(t) == t
  {
    if t != [] {
      CStringOfNulFree(t[1..]);
    }
  }

  /** A parse buffer's content: `strlen + 1` bytes, the last of which is the terminator. */
  predicate Terminated(s: Text) {
    |s| > 0 && s[|s| - 1] == NUL
  }

  /** `t` stands in `s` at offset `o`. */
  predicate At(s: Text, o: nat, t: Text) {
    o + |t| <= |s| && s[o..o + |t|] == t
  }

  lemma AtAppend(s: Text, o: nat, a: Text, b: Text)
    ensures At(s, o, a + b) <==> At(s, o, a) && At(s, o + |a|, b)
  {
    if At(s, o, a + b) {
      assert s[o..o + |a|] == (a + b)[..|a|] by {
        assert s[o..o + |a + b|][..|a|] == s[o..o + |a|];
      }
      assert s[o + |a|..o + |a| + |b|] == (a + b)[|a|..] by {
        assert s[o..o + |a + b|][|a|..] == s[o + |a|..o + |a| + |b|];
      }
    }
    if At(s, o, a) && At(s, o + |a|, b) {
      assert s[o..o + |a + b|] == s[o..o + |a|] + s[o + |a|..o + |a| + |b|];
    }
  }

  lemma AtBound(s: Text, o: nat, t: Text)
    requires At(s, o, t)
    ensures o + |t| <= |s|
  {
  }

  lemma AtByte(s: Text, o: nat, t: Text, k: nat)
    requires At(s, o, t) && k < |t|
    ensures o + |t| <= |s| && s[o + k] == t[k]
  {
    assert s[o..o + |t|][k] == s[o + k];
  }
}
