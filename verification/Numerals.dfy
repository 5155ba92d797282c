/** What numbers mean: the pieces a numeral is written with, and the value they stand for by place. */
module Numerals {
  import opened Bytes
  import opened Numbers

  predicate AllDigits(t: Text) {
    forall k :: 0 <= k < |t| ==> '0' as int <= t[k] <= '9' as int
  }

  /** The value of digits, by place. */
  function Value(t: Text): nat
    requires AllDigits(t)
  {
    if t == [] then 0 else 10 * Value(t[..|t| - 1]) + (t[|t| - 1] as int - '0' as int)
  }

  function Ten(k: nat): nat {
    if k == 0 then 1 else 10 * Ten(k - 1)
  }

  /** A sign or nothing, digits, perhaps a point and digits, and perhaps an exponent. */
  datatype Numeral = Numeral(sign: Text, whole: Text, dotted: bool, fraction: Text, exponent: Text)

  predicate IsSignText(t: Text) {
    t == [] || t == Lit("+") || t == Lit("-")
  }

  /** An `e` of either case, a sign or nothing, and digits. */
  predicate IsExponent(t: Text) {
    |t| > 1 && (t[0] == 'e' as int || t[0] == 'E' as int)
    && var s := if t[1] == '+' as int || t[1] == '-' as int then 2 else 1;
       |t| > s && AllDigits(t[s..])
  }

  function ExponentValue(t: Text): int
    requires IsExponent(t)
  {
    if t[1] == '-' as int then -(Value(t[2..]) as int)
    else if t[1] == '+' as int then Value(t[2..])
    else Value(t[1..])
  }

  predicate WellWritten(n: Numeral) {
    IsSignText(n.sign) && AllDigits(n.whole) && AllDigits(n.fraction) && |n.whole| + |n.fraction| > 0
    && (n.dotted || n.fraction == []) && (n.exponent == [] || IsExponent(n.exponent))
  }

  function Written(n: Numeral): Text {
    n.sign + n.whole + (if n.dotted then Lit(".") else []) + n.fraction + n.exponent
  }

  predicate StartsDigit(t: Text) {
    t != [] && '0' as int <= t[0] <= '9' as int
  }

  /** What could still belong to the numeral. */
  predicate Extends(n: Numeral, tail: Text) {
    StartsDigit(tail)
    || (n.exponent == []
        && ((!n.dotted && tail != [] && tail[0] == '.' as int)
            || (|tail| > 1 && (tail[0] == 'e' as int || tail[0] == 'E' as int)
                && (StartsDigit(tail[1..])
                    || ((tail[1] == '+' as int || tail[1] == '-' as int) && StartsDigit(tail[2..]))))))
  }

  /** `v` is what the numeral stands for. */
  predicate StandsFor(n: Numeral, v: real)
    requires WellWritten(n)
  {
    var digits := Value(n.whole + n.fraction) as real;
    var signed := if n.sign == Lit("-") then -digits else digits;
    Scaled(signed, ExponentOf(n) - |n.fraction|, v)
  }

  function ExponentOf(n: Numeral): int
    requires WellWritten(n)
  {
    if n.exponent == [] then 0 else ExponentValue(n.exponent)
  }

  /** `v` is `m` times ten to the `x`. */
  predicate Scaled(m: real, x: int, v: real) {
    if x >= 0 then v == m * Ten(x) as real else v * Ten(-x) as real == m
  }

  // ---- The reader's own functions compute this ----

  lemma {:induction false} DigitsValueIs(w: Text, i: nat, e: nat)
    requires i <= e <= |w| && AllDigits(w[i..e])
    requires forall k :: i <= k < e ==> IsDigit(w[k])
    ensures DigitsValue(w, i, e) == Value(w[i..e])
    decreases e - i
  {
    if i < e {
      SliceOf(w, i, e, 0, e - i - 1);
      assert w[i..e][..e - i - 1] == w[i..e][0..e - i - 1];
      DigitsValueIs(w, i, e - 1);
    }
  }

  lemma {:induction false} ValueAppend(a: Text, b: Text)
    requires AllDigits(a) && AllDigits(b)
    ensures AllDigits(a + b) && Value(a + b) == Value(a) * Ten(|b|) + Value(b)
    decreases |b|
  {
    if b == [] {
      assert a + b == a;
    } else {
      var c := b[..|b| - 1];
      ValueAppend(a, c);
      assert (a + b)[..|a + b| - 1] == a + c;
      Distribute(Value(a), Ten(|c|), Value(c));
    }
  }

  lemma Distribute(a: nat, p: nat, c: nat)
    ensures 10 * (a * p + c) == a * (10 * p) + 10 * c
  {
  }

  lemma {:induction false} TenIs(k: nat)
    ensures Pow10(k) == Ten(k) as real && Ten(k) > 0
  {
    if k > 0 {
      TenIs(k - 1);
    }
  }

  lemma ScaleIs(v: real, x: int, r: real)
    requires r == Scale(v, x)
    ensures Scaled(v, x, r)
  {
    if x >= 0 {
      TenIs(x);
    } else {
      TenIs(-x);
    }
  }

  /** Digits end where the first other byte stands. */
  lemma RunEnds(w: Text, i: nat, e: nat)
    requires i <= e <= |w| && AllDigits(w[i..e]) && !StartsDigit(w[e..])
    ensures DigitsEnd(w, i) == e && forall k :: i <= k < e ==> IsDigit(w[k])
  {
    forall k | i <= k < e ensures IsDigit(w[k]) {
      assert w[i..e][k - i] == w[k];
    }
    DigitsEndAt(w, i, e);
  }

  /** Where the pieces of a numeral lie. */
  lemma Slices(n: Numeral, tail: Text)
    requires WellWritten(n)
    ensures var w := Written(n) + tail;
            var a := |n.sign|;
            var b := a + |n.whole|;
            var c := b + if n.dotted then 1 else 0;
            var d := c + |n.fraction|;
            w != [] && |Written(n)| == d + |n.exponent| && w[a..b] == n.whole && w[c..d] == n.fraction
            && w[d..] == n.exponent + tail && (n.dotted ==> b < |w| && w[b] == DOT) && d <= |w|
            && |n.whole| + |n.fraction| > 0 && AllDigits(n.whole) && AllDigits(n.fraction)
            && AllDigits(n.whole + n.fraction) && (n.dotted || n.fraction == [])
            && (n.sign == [] ==> |w| > 0 && w[0] != '+' as int && w[0] != '-' as int)
            && (n.sign != [] ==> n.sign == [w[0]])
  {
    hide *;
    var dot := DotText(n);
    var w := Written(n) + tail;
    var s, x, y, z := n.sign, n.whole, n.fraction, n.exponent + tail;
    WrittenParts(n, dot);
    Regroup(s, x, dot, y, n.exponent, tail);
    Middle(s, x, dot + (y + z), w);
    Middle(s + x, dot, y + z, w);
    Middle(s + x + dot, y, z, w);
    Starts(n, dot, w);
  }

  function DotText(n: Numeral): Text {
    if n.dotted then Lit(".") else []
  }

  lemma WrittenParts(n: Numeral, dot: Text)
    requires WellWritten(n) && dot == DotText(n)
    ensures Written(n) == n.sign + n.whole + dot + n.fraction + n.exponent
    ensures |dot| == (if n.dotted then 1 else 0) && (n.dotted ==> dot[0] == DOT)
    ensures |n.whole| + |n.fraction| > 0 && AllDigits(n.whole) && AllDigits(n.fraction)
    ensures AllDigits(n.whole + n.fraction) && (n.dotted || n.fraction == [])
  {
  }

  lemma Starts(n: Numeral, dot: Text, w: Text)
    requires WellWritten(n) && dot == DotText(n) && |n.sign| + |n.whole| + |dot| <= |w|
    requires w[|n.sign|..|n.sign| + |n.whole|] == n.whole && n.sign <= w
    requires w[|n.sign| + |n.whole|..|n.sign| + |n.whole| + |dot|] == dot
    ensures w != [] && (n.sign == [] ==> w[0] != '+' as int && w[0] != '-' as int)
    ensures n.sign != [] ==> n.sign == [w[0]]
  {
    if n.sign == [] {
      if n.whole != [] {
        assert w[0] == n.whole[0];
      } else {
        assert w[0] == dot[0];
      }
    }
  }

  lemma Regroup(a: Text, b: Text, c: Text, d: Text, e: Text, f: Text)
    ensures a + b + c + d + e + f == a + b + (c + (d + (e + f)))
    ensures a + b + c + d + e + f == a + b + c + (d + (e + f))
    ensures a + b + c + d + e + f == a + b + c + d + (e + f)
  {
    assert c + (d + (e + f)) == c + d + e + f;
    assert d + (e + f) == d + e + f;
  }

  lemma Middle(a: Text, m: Text, z: Text, w: Text)
    requires w == a + m + z
    ensures w[|a|..|a| + |m|] == m && w[|a| + |m|..] == z && (m != [] ==> w[|a|] == m[0])
  {
  }

  lemma ExponentReads(w: Text, d: nat, ex: Text, tail: Text)
    requires d <= |w| && w[d..] == ex + tail && IsExponent(ex) && !StartsDigit(tail)
    ensures Exponent(w, d) == (d + |ex|, ExponentValue(ex))
  {
    var s := if ex[1] == '+' as int || ex[1] == '-' as int then 2 else 1;
    var j, e := d + s, d + |ex|;
    ExponentSlices(w, d, ex, tail, s);
    RunEnds(w, j, e);
    DigitsValueIs(w, j, e);
    hide Value, DigitsValue, DigitsEnd;
  }

  lemma ExponentSlices(w: Text, d: nat, ex: Text, tail: Text, s: nat)
    requires d <= |w| && w[d..] == ex + tail && 0 < s < |ex|
    ensures w[d] == ex[0] && w[d + 1] == ex[1] && d + |ex| <= |w|
    ensures w[d + s..d + |ex|] == ex[s..] && w[d + |ex|..] == tail
  {
    var behind := w[d..];
    assert behind == w[d..|w|] && behind[0] == ex[0] && behind[1] == ex[1];
    SliceOf(w, d, |w|, s, |ex|);
    SliceOf(w, d, |w|, |ex|, |w| - d);
    assert behind[s..|ex|] == ex[s..];
    assert behind[|ex|..|w| - d] == tail && w[d + |ex|..|w|] == w[d + |ex|..];
  }

  lemma NoExponent(w: Text, d: nat, n: Numeral)
    requires d <= |w| && n.exponent == [] && !Extends(n, w[d..])
    ensures Exponent(w, d) == (d, 0)
  {
    var tail := w[d..];
    if d < |w| && (w[d] == LOWER_E || w[d] == UPPER_E) {
      assert tail[0] == w[d];
      var j := if d + 1 < |w| && IsSign(w[d + 1]) then d + 2 else d + 1;
      assert d + 1 < |w| ==> tail[1] == w[d + 1];
      assert j < |w| ==> w[j] == tail[j - d] && tail[j - d..][0] == tail[j - d];
      assert !StartsDigit(w[j..]);
      DigitsEndAt(w, j, j);
    }
  }

  /** What stands behind the whole part, and behind the fraction, is no digit. */
  lemma Behind(n: Numeral, tail: Text, w: Text, b: nat, d: nat)
    requires WellWritten(n) && !Extends(n, tail) && b <= d <= |w|
    requires w[d..] == n.exponent + tail && (n.dotted ==> b < |w| && w[b] == DOT) && (!n.dotted ==> b == d)
    ensures !StartsDigit(w[b..]) && !StartsDigit(w[d..]) && (!n.dotted && b < |w| ==> w[b] != DOT)
  {
    assert d < |w| ==> w[d] == w[d..][0] == (n.exponent + tail)[0];
    assert b < |w| ==> w[b] == w[b..][0];
  }

  /** The reader's result from where its runs of digits end. */
  lemma StrtodFrom(w: Text, a: nat, b: nat, dotted: bool, d: nat, x: int)
    requires w != [] && a == (if IsSign(w[0]) then 1 else 0) && a <= b <= d <= |w| && DigitsEnd(w, a) == b
    requires dotted <==> b < |w| && w[b] == DOT
    requires if dotted then b + 1 <= d && DigitsEnd(w, b + 1) == d else d == b
    requires b > a || (dotted && d > b + 1)
    requires Exponent(w, d).1 == x
    ensures var f := if dotted then d - b - 1 else 0;
            var m := if dotted then Scale(DigitsValue(w, a, b) as real, f) + DigitsValue(w, b + 1, d) as real
                     else DigitsValue(w, a, b) as real;
            var v := Scale(m, x - f);
            Strtod(w) == (Exponent(w, d).0, if a == 1 && w[0] == MINUS then -v else v)
  {
    hide DigitsEnd, DigitsValue, Exponent, Scale;
  }

  lemma DotBefore(n: Numeral, w: Text, b: nat, c: nat, d: nat)
    requires WellWritten(n) && b <= d <= |w| && c == (if n.dotted then b + 1 else b) && d == c + |n.fraction|
    requires !StartsDigit(w[b..]) && !StartsDigit(w[d..]) && w[c..d] == n.fraction
    ensures n.dotted ==> DigitsEnd(w, c) == d && DigitsValue(w, c, d) == Value(n.fraction)
  {
    if n.dotted {
      RunEnds(w, c, d);
      DigitsValueIs(w, c, d);
    }
  }

  lemma ExponentRead(n: Numeral, tail: Text, w: Text, d: nat)
    requires WellWritten(n) && !Extends(n, tail) && d <= |w| && w[d..] == n.exponent + tail
    ensures Exponent(w, d) == (d + |n.exponent|, ExponentOf(n))
  {
    if n.exponent == [] {
      assert w[d..] == tail;
      NoExponent(w, d, n);
    } else {
      ExponentReads(w, d, n.exponent, tail);
    }
  }

  /** The digits before and behind the point make up the digits without it. */
  lemma MantissaIs(n: Numeral)
    requires WellWritten(n)
    ensures Value(n.whole + n.fraction) as real
         == if n.dotted then Scale(Value(n.whole) as real, |n.fraction|) + Value(n.fraction) as real
            else Value(n.whole) as real
  {
    ValueAppend(n.whole, n.fraction);
    if n.dotted {
      ShiftedSum(Value(n.whole), |n.fraction|, Value(n.fraction));
    } else {
      assert n.whole + n.fraction == n.whole;
    }
    hide *;
  }

  lemma ShiftedSum(a: nat, k: nat, b: nat)
    ensures (a * Ten(k) + b) as real == Scale(a as real, k) + b as real
  {
    var v := Scale(a as real, k);
    ScaleIs(a as real, k, v);
    assert v == a as real * Ten(k) as real;
    hide *;
    RealProduct(a, Ten(k));
  }

  lemma RealProduct(a: nat, b: nat)
    ensures (a * b) as real == a as real * b as real
  {
  }

  lemma SignedScale(n: Numeral, v: real)
    requires WellWritten(n)
    requires v == Scale(Value(n.whole + n.fraction) as real, ExponentOf(n) - |n.fraction|)
    ensures StandsFor(n, if n.sign == Lit("-") then -v else v)
  {
    hide Value, ExponentOf, Scaled, Scale;
    var digits, x := Value(n.whole + n.fraction) as real, ExponentOf(n) - |n.fraction|;
    ScaleIs(digits, x, v);
    ScaledNegated(digits, x, v);
  }

  lemma ScaledNegated(m: real, x: int, v: real)
    requires Scaled(m, x, v)
    ensures Scaled(-m, x, -v)
  {
    hide Ten;
    var t := Ten(if x >= 0 then x else -x) as real;
    Negated(m, t);
    Negated(v, t);
  }

  lemma Negated(a: real, b: real)
    ensures -(a * b) == (-a) * b
  {
  }

  lemma SignIs(n: Numeral, w: Text)
    requires WellWritten(n) && w != []
    requires n.sign == [] ==> w[0] != '+' as int && w[0] != '-' as int
    requires n.sign != [] ==> n.sign == [w[0]]
    ensures IsSign(w[0]) <==> |n.sign| == 1
    ensures |n.sign| <= 1 && (n.sign == Lit("-") <==> |n.sign| == 1 && w[0] == MINUS)
  {
    assert Lit("-") == ['-' as int] && Lit("+") == ['+' as int];
  }

  /**
    The reader takes a numeral whole, as far as it goes, and gives it its value: digits by place, a point that divides
    by ten for each digit behind it, an exponent that multiplies or divides, and a sign.
   */
  lemma ReadsNumeral(n: Numeral, tail: Text)
    requires WellWritten(n) && !Extends(n, tail)
    ensures var r := Strtod(Written(n) + tail); r.0 == |Written(n)| && StandsFor(n, r.1)
  {
    hide *;
    var w := Written(n) + tail;
    Slices(n, tail);
    var a := |n.sign|;
    var b := a + |n.whole|;
    var c := b + if n.dotted then 1 else 0;
    var d := c + |n.fraction|;
    SignIs(n, w);
    Behind(n, tail, w, b, d);
    RunEnds(w, a, b);
    DigitsValueIs(w, a, b);
    DotBefore(n, w, b, c, d);
    ExponentRead(n, tail, w, d);
    MantissaIs(n);
    SignedScale(n, Scale(Value(n.whole + n.fraction) as real, ExponentOf(n) - |n.fraction|));
    StrtodFrom(w, a, b, n.dotted, d, ExponentOf(n));
  }

  // ---- And nothing but numerals is read ----

  lemma RunIsDigits(w: Text, i: nat, e: nat)
    requires i <= |w| && e == DigitsEnd(w, i)
    ensures i <= e <= |w| && AllDigits(w[i..e]) && !StartsDigit(w[e..])
  {
    assert forall k :: 0 <= k < e - i ==> w[i..e][k] == w[i + k];
  }

  /** The exponent the reader takes is one, and what it leaves cannot belong to it. */
  lemma ExponentTaken(w: Text, d: nat)
    requires d <= |w|
    ensures var e := Exponent(w, d).0;
            d <= e <= |w| && (e > d ==> IsExponent(w[d..e]) && !StartsDigit(w[e..]))
  {
    if d < |w| && (w[d] == LOWER_E || w[d] == UPPER_E) {
      var j := if d + 1 < |w| && IsSign(w[d + 1]) then d + 2 else d + 1;
      var k := DigitsEnd(w, j);
      RunIsDigits(w, j, k);
      var t := w[d..];
      assert d + 1 < |w| ==> t[1] == w[d + 1] && t[1..] == w[d + 1..];
      assert d + 2 <= |w| ==> t[2..] == w[d + 2..];
      if k > j {
        var x := w[d..k];
        assert x[0] == w[d] && x[1] == w[d + 1];
        SliceOf(w, d, k, j - d, k - d);
        assert x[j - d..] == x[j - d..k - d];
        assert IsDigit(w[j]);
      }
    }
  }

  lemma NothingExtends(n: Numeral, w: Text, d: nat)
    requires d <= |w| && Exponent(w, d).0 == d && n.exponent == [] && !StartsDigit(w[d..])
    requires n.dotted || d == |w| || w[d] != DOT
    ensures !Extends(n, w[d..])
  {
    if d < |w| && (w[d] == LOWER_E || w[d] == UPPER_E) {
      var j := if d + 1 < |w| && IsSign(w[d + 1]) then d + 2 else d + 1;
      RunIsDigits(w, j, DigitsEnd(w, j));
      assert d + 1 < |w| ==> w[d..][1] == w[d + 1] && w[d..][1..] == w[d + 1..];
      assert d + 2 <= |w| ==> w[d..][2..] == w[d + 2..];
    }
  }

  /** Whatever is read is the longest numeral there. */
  lemma NumeralRead(w: Text) returns (n: Numeral, tail: Text)
    requires Strtod(w).0 > 0
    ensures WellWritten(n) && !Extends(n, tail) && w == Written(n) + tail
  {
    var a := if IsSign(w[0]) then 1 else 0;
    var b := DigitsEnd(w, a);
    var dotted := b < |w| && w[b] == DOT;
    var c := if dotted then b + 1 else b;
    var d := if dotted then DigitsEnd(w, c) else b;
    var e := Exponent(w, d).0;
    RunIsDigits(w, a, b);
    if dotted {
      RunIsDigits(w, c, d);
    }
    ExponentTaken(w, d);
    n, tail := Numeral(w[..a], w[a..b], dotted, w[c..d], w[d..e]), w[e..];
    SignTaken(w, a);
    if e == d {
      NothingExtends(n, w, d);
    }
    Pieced(w, n, a, b, c, d, e);
  }

  lemma SignTaken(w: Text, a: nat)
    requires w != [] && a == if IsSign(w[0]) then 1 else 0
    ensures IsSignText(w[..a])
  {
    assert Lit("-") == ['-' as int] && Lit("+") == ['+' as int];
    assert a == 1 ==> w[..a] == [w[0]];
  }

  lemma Pieced(w: Text, n: Numeral, a: nat, b: nat, c: nat, d: nat, e: nat)
    requires a <= b <= c <= d <= e <= |w| && n == Numeral(w[..a], w[a..b], n.dotted, w[c..d], w[d..e])
    requires if n.dotted then c == b + 1 && w[b] == DOT else c == b
    ensures w == Written(n) + w[e..]
  {
    assert n.dotted ==> w[b..c] == Lit(".");
    assert w[..a] + w[a..b] == w[..b];
    assert w[..b] + w[b..c] == w[..c];
    assert w[..c] + w[c..d] == w[..d];
    assert w[..d] + w[d..e] == w[..e];
    assert w[..e] + w[e..] == w;
  }

  /** Digits, or a point and digits, behind a sign or nothing, are read. */
  lemma ReadsDigits(w: Text, a: nat)
    requires a < |w| && a == if IsSign(w[0]) then 1 else 0
    requires IsDigit(w[a]) || (w[a] == DOT && a + 1 < |w| && IsDigit(w[a + 1]))
    ensures Strtod(w).0 > 0
  {
    hide Scale, DigitsValue;
  }

  lemma WrittenStarts(n: Numeral, tail: Text)
    requires WellWritten(n)
    ensures var w, a := Written(n) + tail, |n.sign|;
            a < |w| && a == (if IsSign(w[0]) then 1 else 0)
            && (IsDigit(w[a]) || (w[a] == DOT && a + 1 < |w| && IsDigit(w[a + 1])))
  {
    var w, a := Written(n) + tail, |n.sign|;
    Slices(n, tail);
    SignIs(n, w);
    hide Written, Value, ExponentValue;
    if n.whole != [] {
      assert w[a] == w[a..a + |n.whole|][0];
    } else {
      assert w[a + 1] == w[a + 1..a + 1 + |n.fraction|][0];
    }
  }

  /** Something is read exactly when a numeral stands there. */
  lemma ReadsIff(w: Text)
    ensures Strtod(w).0 > 0 <==> exists n, tail :: WellWritten(n) && w == Written(n) + tail
  {
    hide Strtod, WellWritten, Written;
    if Strtod(w).0 > 0 {
      var n, tail := NumeralRead(w);
    }
    if n, tail :| WellWritten(n) && w == Written(n) + tail {
      WrittenStarts(n, tail);
      ReadsDigits(w, |n.sign|);
    }
  }

  // ---- What the parser hands to the reader ----

  lemma NumberBytes(c: byte)
    ensures IsNumberByte(c) <==> c in Lit("0123456789+-eE.")
  {
    assert Lit("0123456789+-eE.") == [48, 49, 50, 51, 52, 53, 54, 55, 56, 57, 43, 45, 101, 69, 46];
  }

  /** The longest run of number bytes, but no more than 63 of them. */
  lemma {:induction false} RunIff(s: Text, o: nat, limit: nat, n: nat)
    requires o <= |s|
    ensures NumberRun(s, o, limit) == n
       <==> o + n <= |s| && n <= limit && (forall k :: o <= k < o + n ==> IsNumberByte(s[k]))
            && (n == limit || o + n == |s| || !IsNumberByte(s[o + n]))
    decreases limit
  {
    if limit > 0 && o < |s| && IsNumberByte(s[o]) && n > 0 {
      RunIff(s, o + 1, limit - 1, n - 1);
    }
  }

  lemma RunTaken(s: Text, o: nat, n: nat)
    requires o <= |s| && NumberRun(s, o, 63) == n
    ensures o + n <= |s| && NumberAt(s, o) == Strtod(s[o..o + n])
  {
    hide Strtod, NumberRun;
  }

  /** The number at a place in a text is the longest numeral at the start of that run. */
  lemma NumberAtIs(s: Text, o: nat, k: nat, n: Numeral, tail: Text)
    requires o + k <= |s| && k <= 63 && s[o..o + k] == Written(n) + tail && WellWritten(n) && !Extends(n, tail)
    requires forall i :: o <= i < o + k ==> s[i] in Lit("0123456789+-eE.")
    requires k == 63 || o + k == |s| || s[o + k] !in Lit("0123456789+-eE.")
    ensures var r := NumberAt(s, o); r.0 == |Written(n)| && StandsFor(n, r.1)
  {
    hide *;
    forall i | o <= i < o + k ensures IsNumberByte(s[i]) {
      NumberBytes(s[i]);
    }
    if o + k < |s| {
      NumberBytes(s[o + k]);
    }
    RunIff(s, o, 63, k);
    RunTaken(s, o, k);
    ReadsNumeral(n, tail);
  }

  // ---- Printed integers ----

  lemma {:induction false} DigitsPlain(n: nat)
    ensures |Digits(n)| > 1 ==> Digits(n)[0] != '0' as int
    ensures AllDigits(Digits(n)) && Value(Digits(n)) == n
    decreases n
  {
    if n >= 10 {
      DigitsPlain(n / 10);
      var t := Digits(n);
      assert t[..|t| - 1] == Digits(n / 10);
    } else {
      assert Digits(n)[..0] == [];
    }
  }

  /** An integer is printed with a minus only if it is negative, and without zeros in front. */
  lemma DecimalPlain(n: int)
    ensures var digits := if n < 0 then Decimal(n)[1..] else Decimal(n);
            (n < 0 ==> Decimal(n)[0] == '-' as int) && AllDigits(digits) && Value(digits) == (if n < 0 then -n else n)
            && |digits| > 0 && (|digits| > 1 ==> digits[0] != '0' as int)
  {
    DigitsPlain(if n < 0 then -n else n);
    assert n < 0 ==> Decimal(n)[1..] == Digits(-n);
  }
}
