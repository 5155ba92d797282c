/** The C bit operators on non-negative integers, and the masks and shifts the UTF-16 converter uses. */
module BitOps {
  function And(a: nat, b: nat): nat {
    if a == 0 || b == 0 then 0 else (a % 2) * (b % 2) + 2 * And(a / 2, b / 2)
  }

  function Or(a: nat, b: nat): nat {
    if a == 0 then b
    else if b == 0 then a
    else (if a % 2 == 1 || b % 2 == 1 then 1 else 0) + 2 * Or(a / 2, b / 2)
  }

  function Pow2(k: nat): (r: nat)
    ensures r >= 1
  {
    if k == 0 then 1 else 2 * Pow2(k - 1)
  }

  function Shl(a: nat, k: nat): nat
    decreases k
  {
    if k == 0 then a else Shl(2 * a, k - 1)
  }

  function Shr(a: nat, k: nat): nat
    decreases k
  {
    if k == 0 then a else Shr(a / 2, k - 1)
  }

  /** An all-ones mask keeps the remainder. */
  lemma {:induction false} AndLowMask(a: nat, k: nat)
    ensures And(a, Pow2(k) - 1) == a % Pow2(k)
  {
    if k > 0 {
      var m := Pow2(k - 1);
      var mask := 2 * m - 1;
      AndLowMask(a / 2, k - 1);
      SplitMod(a, m);
      AndBit(a, mask);
      hide And;
      assert mask / 2 == m - 1 && mask % 2 == 1;
    }
  }

  lemma SplitMod(a: nat, m: nat)
    requires m > 0
    ensures a % (2 * m) == a % 2 + 2 * ((a / 2) % m)
  {
    var q, r := (a / 2) / m, (a / 2) % m;
    assert a == (2 * m) * q + (a % 2 + 2 * r) by {
      assert a / 2 == m * q + r;
      assert 2 * (m * q) == (2 * m) * q;
    }
    ModUnique(a, 2 * m, q, a % 2 + 2 * r);
  }

  lemma MultipleBounds(x: int, d: int)
    requires d > 0
    ensures x >= 1 ==> x * d >= d
    ensures x <= -1 ==> x * d <= -d
  {
    assert x * d - d == (x - 1) * d;
    assert x * d + d == (x + 1) * d;
  }

  lemma ModUnique(a: nat, d: nat, q: nat, r: nat)
    requires d > 0 && r < d && a == d * q + r
    ensures a % d == r && a / d == q
  {
    var q2, r2 := a / d, a % d;
    assert a == d * q2 + r2;
    MultipleBounds(q - q2, d);
    assert (q - q2) * d == r2 - r;
  }

  lemma OrBit(a: nat, b: nat)
    ensures Or(a, b) == (if a % 2 == 1 || b % 2 == 1 then 1 else 0) + 2 * Or(a / 2, b / 2)
  {
  }

  lemma AndBit(a: nat, b: nat)
    ensures And(a, b) == (a % 2) * (b % 2) + 2 * And(a / 2, b / 2)
  {
  }

  /** Or-ing in bits below a shifted value adds them. */
  lemma {:induction false} OrDisjoint(a: nat, b: nat, k: nat)
    requires b < Pow2(k)
    ensures Or(a * Pow2(k), b) == a * Pow2(k) + b
  {
    if k == 0 {
      OrNothing(a, b, Pow2(k));
    } else {
      var p, m := Pow2(k), Pow2(k - 1);
      OrDisjoint(a, b / 2, k - 1);
      hide *;
      DoubledProduct(a, p, m);
      OrBelow(a * m, b);
    }
  }

  lemma OrNothing(a: nat, b: nat, p: nat)
    requires b < p && p == 1
    ensures Or(a * p, b) == a * p + b
  {
  }

  lemma DoubledProduct(a: nat, p: nat, m: nat)
    requires p == 2 * m
    ensures a * p == 2 * (a * m)
  {
  }

  lemma OrBelow(x: nat, b: nat)
    ensures Or(2 * x, b) == b % 2 + 2 * Or(x, b / 2)
  {
    OrBit(2 * x, b);
    assert 2 * x % 2 == 0 && 2 * x / 2 == x;
  }

  lemma {:induction false} ShlIsTimes(a: nat, k: nat)
    ensures Shl(a, k) == a * Pow2(k)
    decreases k
  {
    if k > 0 {
      ShlIsTimes(2 * a, k - 1);
      assert (2 * a) * Pow2(k - 1) == a * (2 * Pow2(k - 1));
    }
  }

  lemma Pow2Values()
    ensures Pow2(3) == 8 && Pow2(4) == 16 && Pow2(5) == 32 && Pow2(6) == 64
    ensures Pow2(7) == 128 && Pow2(8) == 256 && Pow2(10) == 1024
  {
    assert Pow2(3) == 8;
    assert Pow2(5) == 32;
    assert Pow2(7) == 128;
    assert Pow2(9) == 512;
  }

  lemma ShrSix(a: nat)
    ensures Shr(a, 6) == a / 64
  {
    assert Shr(a, 6) == Shr(a / 2 / 2, 4) == Shr(a / 2 / 2 / 2 / 2, 2) == a / 2 / 2 / 2 / 2 / 2 / 2;
  }

  lemma OrTwo(c: nat)
    ensures And(Or(c, 2), 2) == 2
  {
    var x := Or(c / 2, 1);
    OrBit(c, 2);
    OrBit(c / 2, 1);
    assert x % 2 == 1;
    AndBit(Or(c, 2), 2);
    assert Or(c, 2) / 2 == x;
    AndBit(x, 1);
    assert And(x / 2, 0) == 0;
  }

  lemma Halve(b: nat, x: nat)
    requires b < 2
    ensures (b + 2 * x) % 2 == b && (b + 2 * x) / 2 == x
  {
  }

  /** One step of computing `(c | mark) & mask` bit by bit, when mark has bit 0 clear and mask has it set. */
  lemma MarkAndMask(c: nat, mark: nat, mask: nat)
    ensures And(Or(c, 2 * mark), 2 * mask + 1) == c % 2 + 2 * And(Or(c / 2, mark), mask)
  {
    hide And, Or;
    var x := Or(c / 2, mark);
    OrBit(c, 2 * mark);
    Halve(0, mark);
    Halve(c % 2, x);
    Halve(1, mask);
    AndBit(c % 2 + 2 * x, 1 + 2 * mask);
  }

  lemma Doubled(m: nat)
    ensures 2 * (3 * m - 1) + 1 == 3 * (2 * m) - 1
  {
  }

  lemma GapStep(c: nat, half: nat, m: nat, marked: nat)
    requires m > 0 && half == c / 2 && marked == Or(c, 2 * (2 * m))
    requires And(Or(half, 2 * m), 3 * m - 1) == 2 * m + half % m
    ensures And(marked, 2 * (3 * m - 1) + 1) == 2 * (2 * m) + c % (2 * m)
  {
    hide And, Or;
    MarkAndMask(c, 2 * m, 3 * m - 1);
    SplitMod(c, m);
  }

  /** Setting the bit above a gap and masking the gap away keeps the bits below the gap. */
  lemma {:induction false} GapMask(c: nat, k: nat)
    ensures And(Or(c, 2 * Pow2(k)), 3 * Pow2(k) - 1) == 2 * Pow2(k) + c % Pow2(k)
  {
    if k == 0 {
      OrTwo(c);
    } else {
      var m := Pow2(k - 1);
      assert Pow2(k) == 2 * m;
      hide *;
      GapMask(c / 2, k - 1);
      Doubled(m);
      GapStep(c, c / 2, m, Or(c, 2 * (2 * m)));
    }
  }

  /** `(c | 0x80) & 0xBF` is a UTF-8 continuation byte: the low six bits under the 10xxxxxx mark. */
  lemma ContinuationByte(c: nat)
    ensures And(Or(c, 0x80), 0xBF) == 0x80 + c % 64
  {
    Pow2Values();
    GapMask(c, 6);
  }

  lemma LowSevenBits(a: nat)
    ensures And(a, 0x7F) == a % 128
  {
    Pow2Values();
    AndLowMask(a, 7);
  }

  lemma LowEightBits(a: nat)
    ensures And(a, 0xFF) == a % 256
  {
    Pow2Values();
    AndLowMask(a, 8);
  }

  lemma LowTenBits(a: nat)
    ensures And(a, 0x3FF) == a % 1024
  {
    Pow2Values();
    AndLowMask(a, 10);
  }

  lemma {:induction false} OrCommutes(a: nat, b: nat)
    ensures Or(a, b) == Or(b, a)
  {
    if a != 0 && b != 0 {
      OrCommutes(a / 2, b / 2);
    }
  }

  /** Marking the first byte of a UTF-8 sequence: the mark's bits lie above the value's. */
  lemma MarkFirstByte(top: nat, high: nat, k: nat)
    requires top < Pow2(k) && high * Pow2(k) + top < 256
    ensures And(Or(top, high * Pow2(k)), 0xFF) == high * Pow2(k) + top
  {
    hide And, Or, Pow2;
    var mark := high * Pow2(k);
    OrCommutes(top, mark);
    OrDisjoint(high, top, k);
    LowEightBits(mark + top);
  }

  lemma ShiftedOr(a: nat, b: nat)
    requires b < 1024
    ensures Or(Shl(a, 10), b) == a * 1024 + b
  {
    Pow2Values();
    ShlIsTimes(a, 10);
    OrDisjoint(a, b, 10);
  }

  lemma ShlFour(a: nat)
    ensures Shl(a, 4) == 16 * a
  {
    Pow2Values();
    ShlIsTimes(a, 4);
  }
}
