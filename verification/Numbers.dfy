/** Decimal integers as `%1.15g` prints them, and the decimal numbers `strtod` reads (value exact, not rounded). */
module Numbers {
  import opened Bytes

  /** Integers below this magnitude print as plain digits under `%1.15g` and are doubles exactly. */
  const PRINT_LIMIT: int := 1000000000000000

  const INT_MAX: int := 0x7FFF_FFFF
  const INT_MIN: int := -0x8000_0000

  predicate IsDigit(c: byte) {
    ZERO <= c <= NINE
  }

  function Digits(n: nat): (t: Text)
    ensures |t| >= 1
    ensures forall k :: 0 <= k < |t| ==> IsDigit(t[k])
  {
    if n < 10 then [ZERO as int + n] else Digits(n / 10) + [ZERO as int + n % 10]
  }

  function Decimal(n: int): (t: Text)
    ensures |t| >= 1
    ensures forall k :: 0 <= k < |t| ==> IsDigit(t[k]) || (k == 0 && t[k] == MINUS)
  {
    if n < 0 then [MINUS] + Digits(-n) else Digits(n)
  }

  // ---- Reading ----

  /** End of the run of digits that starts at `i`. */
  function DigitsEnd(w: Text, i: nat): (e: nat)
    requires i <= |w|
    ensures i <= e <= |w|
    ensures forall k :: i <= k < e ==> IsDigit(w[k])
    ensures e < |w| ==> !IsDigit(w[e])
    decreases |w| - i
  {
    if i < |w| && IsDigit(w[i]) then DigitsEnd(w, i + 1) else i
  }

  function DigitsValue(w: Text, i: nat, e: nat): nat
    requires i <= e <= |w|
    requires forall k :: i <= k < e ==> IsDigit(w[k])
  {
    if i == e then 0 else assert IsDigit(w[e - 1]); 10 * DigitsValue(w, i, e - 1) + (w[e - 1] as int - ZERO as int)
  }

  function Pow10(k: nat): (r: real)
    ensures r > 0.0
  {
    if k == 0 then 1.0 else 10.0 * Pow10(k - 1)
  }

  function Scale(v: real, exponent: int): real {
    if exponent >= 0 then v * Pow10(exponent) else v / Pow10(-exponent)
  }

  predicate IsSign(c: byte) { c == PLUS || c == MINUS }

  /** An exponent at `i`: where the number ends and the exponent's value. */
  function Exponent(w: Text, i: nat): (r: (nat, int))
    requires i <= |w|
    ensures i <= r.0 <= |w|
  {
    if i < |w| && (w[i] == LOWER_E || w[i] == UPPER_E) then
      var j := if i + 1 < |w| && IsSign(w[i + 1]) then i + 2 else i + 1;
      var k := DigitsEnd(w, j);
      if k == j then (i, 0)
      else
        var v: int := DigitsValue(w, j, k);
        (k, if w[j - 1] == MINUS then -v else v)
    else (i, 0)
  }

  /**
    The C library's `strtod` on text made of digits, signs, dots and `e`: the longest number `w` starts with,
    as bytes consumed (0 for none) and value.
   */
  function Strtod(w: Text): (r: (nat, real))
    ensures r.0 <= |w|
  {
    var start := if |w| > 0 && IsSign(w[0]) then 1 else 0;
    var whole := DigitsEnd(w, start);
    var dotted := whole < |w| && w[whole] == DOT;
    var end := if dotted then DigitsEnd(w, whole + 1) else whole;
    var fraction := if dotted then end - whole - 1 else 0;
    if whole == start && fraction == 0 then (0, 0.0)
    else
      var mantissa := if dotted
                      then
                        Scale(DigitsValue(w, start, whole) as real, fraction) + DigitsValue(w, whole + 1, end) as real
                      else DigitsValue(w, start, whole) as real;
      var e := Exponent(w, end);
      var v := Scale(mantissa, e.1 - fraction);
      (e.0, if start == 1 && w[0] == MINUS then -v else v)
  }

  predicate IsNumberByte(c: byte) {
    IsDigit(c) || IsSign(c) || c == LOWER_E || c == UPPER_E || c == DOT
  }

  /** How many bytes from `o` on `parse_number` copies: number bytes, at most 63 of them. */
  function NumberRun(s: Text, o: nat, limit: nat): (n: nat)
    requires o <= |s|
    ensures o + n <= |s| && n <= limit
    ensures forall k :: o <= k < o + n ==> IsNumberByte(s[k])
    decreases limit
  {
    if limit > 0 && o < |s| && IsNumberByte(s[o]) then 1 + NumberRun(s, o + 1, limit - 1) else 0
  }

  const NUMBER_BUFFER := 64

  /** The number at `o`, if there is one: its length and value. */
  function NumberAt(s: Text, o: nat): (r: (nat, real))
    requires o <= |s|
    ensures o + r.0 <= |s|
    ensures forall k :: o <= k < o + r.0 ==> IsNumberByte(s[k])
  {
    var n := NumberRun(s, o, NUMBER_BUFFER - 1);
    Strtod(s[o..o + n])
  }

  /** `valueint`: truncation toward zero, saturated to the range of `int`. */
  function ValueInt(v: real): int {
    if v >= INT_MAX as real then INT_MAX
    else if v <= INT_MIN as real then INT_MIN
    else if v >= 0.0 then v.Floor
    else -((-v).Floor)
  }

  lemma ValueIntOfInt(n: int)
    requires INT_MIN <= n <= INT_MAX
    ensures ValueInt(n as real) == n
  {
  }

  // ---- Printed integers read back ----

  lemma {:induction false} DigitsLength(n: nat, k: nat)
    requires n < Power(k) && k >= 1
    ensures |Digits(n)| <= k
  {
    if n >= 10 {
      DigitsLength(n / 10, k - 1);
    }
  }

  function Power(k: nat): nat {
    if k == 0 then 1 else 10 * Power(k - 1)
  }

  lemma DecimalLength(n: int)
    requires -PRINT_LIMIT < n < PRINT_LIMIT
    ensures |Decimal(n)| <= 16
  {
    assert Power(15) == PRINT_LIMIT;
    DigitsLength(if n < 0 then -n else n, 15);
  }

  lemma {:induction false} DigitsValueOf(w: Text, i: nat, n: nat)
    requires At(w, i, Digits(n))
    requires forall k :: i <= k < i + |Digits(n)| ==> IsDigit(w[k])
    ensures DigitsValue(w, i, i + |Digits(n)|) == n
  {
    var t := Digits(n);
    AtByte(w, i, t, |t| - 1);
    if n >= 10 {
      AtAppend(w, i, Digits(n / 10), [ZERO as int + n % 10]);
      DigitsValueOf(w, i, n / 10);
    } else {
      assert DigitsValue(w, i, i) == 0;
    }
  }

  lemma {:induction false} DigitsEndAt(w: Text, i: nat, e: nat)
    requires i <= e <= |w|
    requires forall k :: i <= k < e ==> IsDigit(w[k])
    requires e < |w| ==> !IsDigit(w[e])
    ensures DigitsEnd(w, i) == e
    decreases e - i
  {
    if i < e {
      DigitsEndAt(w, i + 1, e);
    }
  }

  lemma StrtodDecimal(n: int)
    ensures Strtod(Decimal(n)) == (|Decimal(n)|, n as real)
  {
    var w := Decimal(n);
    var start := if n < 0 then 1 else 0;
    var magnitude := if n < 0 then -n else n;
    assert w[start..] == Digits(magnitude);
    assert At(w, start, Digits(magnitude));
    DigitsEndAt(w, start, |w|);
    DigitsValueOf(w, start, magnitude);
    assert Pow10(0) == 1.0;
  }

  lemma {:induction false} NumberRunAt(s: Text, o: nat, n: nat, limit: nat)
    requires o + n <= |s| && n <= limit
    requires forall k :: o <= k < o + n ==> IsNumberByte(s[k])
    requires o + n < |s| ==> !IsNumberByte(s[o + n])
    ensures NumberRun(s, o, limit) == n
    decreases n
  {
    if n > 0 {
      NumberRunAt(s, o + 1, n - 1, limit - 1);
    }
  }

  /** A printed integer that no number byte follows is read back whole. */
  lemma NumberAtDecimal(s: Text, o: nat, n: int)
    requires -PRINT_LIMIT < n < PRINT_LIMIT
    requires At(s, o, Decimal(n))
    requires o + |Decimal(n)| < |s| ==> !IsNumberByte(s[o + |Decimal(n)|])
    ensures NumberAt(s, o) == (|Decimal(n)|, n as real)
  {
    var w := Decimal(n);
    DecimalLength(n);
    forall k | o <= k < o + |w| ensures IsNumberByte(s[k]) {
      AtByte(s, o, w, k - o);
    }
    NumberRunAt(s, o, |w|, NUMBER_BUFFER - 1);
    StrtodDecimal(n);
  }
}
