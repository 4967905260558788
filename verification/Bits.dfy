/**
  Bitwise operations on natural numbers, defined by recursion on the binary digits, with the
  facts that relate them to division and remainder by powers of two.
  */
module Bits {

  function Pow2(k: nat): (r: nat)
    ensures r > 0
  {
    if k == 0 then 1 else 2 * Pow2(k - 1)
  }

  function And(a: nat, b: nat): nat {
    if a == 0 || b == 0 then 0
    else 2 * And(a / 2, b / 2) + (if a % 2 == 1 && b % 2 == 1 then 1 else 0)
  }

  function Or(a: nat, b: nat): nat {
    if a == 0 then b
    else 2 * Or(a / 2, b / 2) + (if a % 2 == 1 || b % 2 == 1 then 1 else 0)
  }

  function Xor(a: nat, b: nat): nat
    decreases a + b
  {
    if a == 0 then b
    else if b == 0 then a
    else 2 * Xor(a / 2, b / 2) + (if a % 2 != b % 2 then 1 else 0)
  }

  /** The n-bit complement. */
  function Not(n: nat, a: nat): nat
    requires a < Pow2(n)
  {
    Pow2(n) - 1 - a
  }

  lemma {:induction false} Pow2Add(a: nat, b: nat)
    ensures Pow2(a + b) == Pow2(a) * Pow2(b)
  {
    if a > 0 {
      Pow2Add(a - 1, b);
      assert Pow2(a + b) == 2 * Pow2(a - 1 + b);
    }
  }

  lemma {:induction false} Pow2Monotone(a: nat, b: nat)
    requires a <= b
    ensures Pow2(a) <= Pow2(b) && (a < b ==> 2 * Pow2(a) <= Pow2(b))
  {
    if a < b {
      Pow2Monotone(a, b - 1);
    }
  }

  lemma {:induction false} Pow2Values()
    ensures Pow2(2) == 4 && Pow2(12) == 0x1000 && Pow2(54) == 0x40_0000_0000_0000
    ensures Pow2(61) == 0x2000_0000_0000_0000 && Pow2(64) == 0x1_0000_0000_0000_0000
  {
    assert Pow2(8) == 256;
    assert Pow2(6) == 64;
    Pow2Add(8, 8);
    Pow2Add(16, 16);
    Pow2Add(32, 32);
    Pow2Add(6, 6);
    Pow2Add(32, 16);
    Pow2Add(48, 6);
    Pow2Add(54, 6);
    assert Pow2(61) == 2 * Pow2(60);
  }

  /** The digits of x below position p are its last digit and the digits of x / 2 below p - 1. */
  lemma {:induction false} ModDigit(x: nat, p: nat)
    requires p > 0
    ensures x % Pow2(p) == 2 * ((x / 2) % Pow2(p - 1)) + x % 2
    ensures x / Pow2(p) == (x / 2) / Pow2(p - 1)
  {
    var q := Pow2(p - 1);
    var h := x / 2;
    assert x == 2 * h + x % 2;
    assert h == q * (h / q) + h % q;
    var r := 2 * (h % q) + x % 2;
    assert x == (2 * q) * (h / q) + r by {
      assert 2 * (q * (h / q)) == (2 * q) * (h / q);
    }
    DivModUnique(x, 2 * q, h / q, r);
  }

  lemma {:induction false} MulAtLeast(d: nat, k: nat)
    requires k >= 1
    ensures d * k >= d
  {
    assert d * k == d * (k - 1) + d;
  }

  lemma {:induction false} DivModUnique(x: nat, d: nat, q: nat, r: nat)
    requires d > 0 && r < d && x == d * q + r
    ensures x / d == q && x % d == r
  {
    var q', r' := x / d, x % d;
    assert d * q' + r' == d * q + r;
    if q > q' {
      assert d * q == d * q' + d * (q - q');
      MulAtLeast(d, q - q');
    } else if q < q' {
      assert d * q' == d * q + d * (q' - q);
      MulAtLeast(d, q' - q);
    }
  }

  /** The p low bits of x: `x & (2^p - 1)`. */
  function Low(x: nat, p: nat): (r: nat)
    ensures r < Pow2(p) && r <= x
    decreases p
  {
    if p == 0 then 0 else 2 * Low(x / 2, p - 1) + x % 2
  }

  /** Logical shift right. */
  function Shr(x: nat, p: nat): nat
    decreases p
  {
    if p == 0 then x else Shr(x / 2, p - 1)
  }

  lemma {:induction false} ShrIsDiv(x: nat, p: nat)
    ensures Shr(x, p) == x / Pow2(p)
    decreases p
  {
    if p > 0 {
      ModDigit(x, p);
      ShrIsDiv(x / 2, p - 1);
    }
  }

  lemma {:induction false} OrBound(a: nat, b: nat, n: nat)
    requires a < Pow2(n) && b < Pow2(n)
    ensures Or(a, b) < Pow2(n)
  {
    if a != 0 {
      assert Pow2(n) == 2 * Pow2(n - 1);
      OrBound(a / 2, b / 2, n - 1);
    }
  }

  lemma {:induction false} AndDisjoint(n: nat, a: nat)
    requires a < Pow2(n)
    ensures And(a, Not(n, a)) == 0
  {
    if a != 0 {
      assert Pow2(n) == 2 * Pow2(n - 1);
      AndDisjoint(n - 1, a / 2);
      assert Not(n, a) / 2 == Not(n - 1, a / 2);
    }
  }

  /** n-bit increment with wrap-around. */
  function Inc(n: nat, a: nat): (r: nat)
    requires a < Pow2(n)
    ensures r < Pow2(n)
  {
    if a + 1 == Pow2(n) then 0 else a + 1
  }

  lemma {:induction false} AndDigits(a: nat, b: nat)
    ensures And(a, b) == 2 * And(a / 2, b / 2) + (if a % 2 == 1 && b % 2 == 1 then 1 else 0)
  {
  }

  lemma {:induction false} NotDigits(n: nat, a: nat)
    requires n > 0 && a < Pow2(n)
    ensures a / 2 < Pow2(n - 1)
    ensures Not(n, a) / 2 == Not(n - 1, a / 2) && Not(n, a) % 2 == 1 - a % 2
  {
    assert Pow2(n) == 2 * Pow2(n - 1);
  }

  lemma {:induction false} IncDigits(n: nat, a: nat)
    requires n > 0 && a < Pow2(n)
    ensures a / 2 < Pow2(n - 1)
    ensures Inc(n, a) / 2 == (if a % 2 == 0 then a / 2 else Inc(n - 1, a / 2))
    ensures Inc(n, a) % 2 == 1 - a % 2
  {
    assert Pow2(n) == 2 * Pow2(n - 1);
  }

  /** `m & ~(m + 1)` keeps exactly the trailing ones of m: it is 2^k - 1 for some k. */
  lemma {:induction false} TrailingOnes(n: nat, m: nat) returns (k: nat)
    requires m < Pow2(n)
    ensures And(m, Not(n, Inc(n, m))) == Pow2(k) - 1
    ensures Pow2(k) - 1 <= m
  {
    k := 0;
    if n > 0 {
      IncDigits(n, m);
      NotDigits(n, Inc(n, m));
      AndDigits(m, Not(n, Inc(n, m)));
      if m % 2 == 0 {
        AndDisjoint(n - 1, m / 2);
      } else {
        var j := TrailingOnes(n - 1, m / 2);
        k := j + 1;
      }
    }
  }

  lemma {:induction false} ExactOnes(n: nat, m: nat, k: nat)
    requires m < Pow2(n) && Low(m, k + 1) == Pow2(k) - 1
    ensures And(m, Not(n, Inc(n, m))) == Pow2(k) - 1
  {
    if n > 0 {
      IncDigits(n, m);
      NotDigits(n, Inc(n, m));
      AndDigits(m, Not(n, Inc(n, m)));
      if k == 0 {
        AndDisjoint(n - 1, m / 2);
      } else {
        OnesDigits(k);
        ExactOnes(n - 1, m / 2, k - 1);
      }
    }
  }

  lemma {:induction false} AndOnes(n: nat, x: nat)
    requires x < Pow2(n)
    ensures And(x, Pow2(n) - 1) == x
  {
    if x != 0 {
      assert Pow2(n) == 2 * Pow2(n - 1);
      AndOnes(n - 1, x / 2);
    }
  }

  /** Masking with the bits from p up clears the digits below p. */
  lemma {:induction false} AndHighMask(n: nat, p: nat, x: nat)
    requires p <= n && x < Pow2(n)
    ensures Pow2(p) <= Pow2(n) && And(x, Pow2(n) - Pow2(p)) == x - x % Pow2(p)
  {
    Pow2Monotone(p, n);
    if p == 0 {
      AndOnes(n, x);
    } else {
      ModDigit(x, p);
      AndHighMask(n - 1, p - 1, x / 2);
      var m := Pow2(n) - Pow2(p);
      assert m % 2 == 0 && m / 2 == Pow2(n - 1) - Pow2(p - 1);
    }
  }

  lemma {:induction false} XorZero(a: nat, b: nat)
    ensures Xor(a, b) == 0 <==> a == b
    decreases a + b
  {
    if a != 0 && b != 0 {
      XorZero(a / 2, b / 2);
    }
  }

  lemma {:induction false} XorHalf(a: nat, b: nat)
    ensures Xor(a, b) / 2 == Xor(a / 2, b / 2)
  {
  }

  lemma {:induction false} XorShift(a: nat, b: nat, p: nat)
    ensures Shr(Xor(a, b), p) == Xor(Shr(a, p), Shr(b, p))
    decreases p
  {
    if p > 0 {
      XorHalf(a, b);
      XorShift(a / 2, b / 2, p - 1);
    }
  }

  lemma {:induction false} XorBound(a: nat, b: nat, n: nat)
    requires a < Pow2(n) && b < Pow2(n)
    ensures Xor(a, b) < Pow2(n)
    decreases a + b
  {
    if a != 0 && b != 0 {
      assert Pow2(n) == 2 * Pow2(n - 1);
      XorBound(a / 2, b / 2, n - 1);
    }
  }

  lemma {:induction false} DropLowBits(x: nat, p: nat)
    ensures x - x % Pow2(p) == 0 <==> Shr(x, p) == 0
  {
    ShrIsDiv(x, p);
    var d := Pow2(p);
    assert x == d * (x / d) + x % d;
    if x / d != 0 {
      MulAtLeast(d, x / d);
    }
  }

  /** Two words agree in all bits from p up if and only if they are equal when shifted right by p. */
  lemma {:induction false} SameHighBits(n: nat, p: nat, a: nat, b: nat)
    requires p <= n && a < Pow2(n) && b < Pow2(n)
    ensures Pow2(p) <= Pow2(n)
    ensures And(Xor(a, b), Pow2(n) - Pow2(p)) == 0 <==> Shr(a, p) == Shr(b, p)
  {
    XorBound(a, b, n);
    AndHighMask(n, p, Xor(a, b));
    DropLowBits(Xor(a, b), p);
    XorShift(a, b, p);
    XorZero(Shr(a, p), Shr(b, p));
  }

  lemma {:induction false} ShrCompose(x: nat, p: nat, q: nat)
    ensures Shr(x, p + q) == Shr(Shr(x, p), q)
    decreases p
  {
    if p > 0 {
      ShrCompose(x / 2, p - 1, q);
    }
  }

  /** Among words equal from bit q up, agreement with `t` from bit r up is all or nothing. */
  lemma {:induction false} HighBitsUniform(r: nat, q: nat, t: nat, a: nat, b: nat)
    requires r >= q || Shr(b, q) != Shr(t, q)
    requires Shr(a, q) == Shr(b, q)
    ensures Shr(a, r) == Shr(t, r) <==> Shr(b, r) == Shr(t, r)
  {
    if r >= q {
      ShrCompose(a, q, r - q);
      ShrCompose(b, q, r - q);
    } else {
      ShrCompose(a, r, q - r);
      ShrCompose(b, r, q - r);
      ShrCompose(t, r, q - r);
    }
  }

  lemma {:induction false} XorBelow(a: nat, b: nat, p: nat)
    ensures Shr(Xor(a, b), p) == 0 <==> Shr(a, p) == Shr(b, p)
  {
    XorShift(a, b, p);
    XorZero(Shr(a, p), Shr(b, p));
  }

  lemma {:induction false} AndSingleBit(p: nat, q: nat)
    ensures And(Pow2(p) - 1, Pow2(q)) != 0 <==> q < p
  {
    if p > 0 && q > 0 {
      assert (Pow2(p) - 1) / 2 == Pow2(p - 1) - 1;
      AndSingleBit(p - 1, q - 1);
    } else if q == 0 {
      if p > 0 { assert (Pow2(p) - 1) % 2 == 1; }
    }
  }

  lemma {:induction false} OrZero(a: nat)
    ensures Or(a, 0) == a
  {
    if a != 0 {
      OrZero(a / 2);
    }
  }

  /** OR of words that share no bit position is addition. */
  lemma {:induction false} OrDisjoint(a: nat, b: nat, k: nat)
    requires Low(a, k) == 0 && b < Pow2(k)
    ensures Or(a, b) == a + b
    decreases k
  {
    if k == 0 {
      OrZero(a);
    } else if a != 0 {
      OrDisjoint(a / 2, b / 2, k - 1);
    }
  }

  lemma {:induction false} OrDigits(a: nat, b: nat)
    ensures Or(a, b) == 2 * Or(a / 2, b / 2) + (if a % 2 == 1 || b % 2 == 1 then 1 else 0)
  {
  }

  lemma {:induction false} LowCleared(x: nat, k: nat)
    ensures Low(x - Low(x, k), k) == 0
    decreases k
  {
    if k > 0 {
      LowCleared(x / 2, k - 1);
      assert (x - Low(x, k)) / 2 == x / 2 - Low(x / 2, k - 1);
    }
  }

  lemma {:induction false} MulDouble(v: nat, w: nat)
    ensures 2 * (v * w) == v * (2 * w)
  {
  }

  lemma {:induction false} LowSplit(x: nat, p: nat, q: nat)
    ensures Low(x, p + q) == Low(Shr(x, p), q) * Pow2(p) + Low(x, p)
    decreases p
  {
    if p > 0 {
      var v := Low(Shr(x / 2, p - 1), q);
      LowSplit(x / 2, p - 1, q);
      MulDouble(v, Pow2(p - 1));
      assert Low(x, p + q) == 2 * Low(x / 2, p - 1 + q) + x % 2;
    }
  }

  lemma {:induction false} LowIsMod(x: nat, p: nat)
    ensures Low(x, p) == x % Pow2(p)
    decreases p
  {
    if p > 0 {
      LowIsMod(x / 2, p - 1);
      ModDigit(x, p);
    } else {
      assert x % 1 == 0;
    }
  }

  lemma {:induction false} ShrAbove(a: nat, b: nat, p: nat, q: nat)
    requires p <= q && Shr(a, p) == Shr(b, p)
    ensures Shr(a, q) == Shr(b, q)
  {
    ShrCompose(a, p, q - p);
    ShrCompose(b, p, q - p);
  }

  lemma {:induction false} SplitWord(x: nat, p: nat)
    ensures x == Shr(x, p) * Pow2(p) + Low(x, p)
    decreases p
  {
    if p > 0 {
      SplitWord(x / 2, p - 1);
      MulDouble(Shr(x / 2, p - 1), Pow2(p - 1));
    }
  }

  lemma {:induction false} OnesDigits(j: nat)
    requires j > 0
    ensures (Pow2(j) - 1) / 2 == Pow2(j - 1) - 1 && (Pow2(j) - 1) % 2 == 1
  {
  }

  /** Setting the low j bits. */
  lemma {:induction false} OrLowOnes(x: nat, j: nat)
    ensures Low(Or(x, Pow2(j) - 1), j) == Pow2(j) - 1 && Shr(Or(x, Pow2(j) - 1), j) == Shr(x, j)
  {
    if j == 0 {
      OrZero(x);
    } else {
      var ones := Pow2(j) - 1;
      OnesDigits(j);
      OrDigits(x, ones);
      OrLowOnes(x / 2, j - 1);
      var y := Or(x, ones);
      assert y / 2 == Or(x / 2, Pow2(j - 1) - 1) && y % 2 == 1;
    }
  }

  /** The low bits of low bits that are all ones. */
  lemma {:induction false} FewerOnes(x: nat, j: nat, i: nat)
    requires i <= j && Low(x, j) == Pow2(j) - 1
    ensures Low(x, i) == Pow2(i) - 1
  {
    if i > 0 {
      OnesDigits(j);
      OnesDigits(i);
      FewerOnes(x / 2, j - 1, i - 1);
    }
  }

  /** Clearing bits below p does not show above it. */
  lemma {:induction false} ShrCleared(x: nat, p: nat, q: nat)
    requires p <= q
    ensures Shr(x - Low(x, p), q) == Shr(x, q)
  {
    if p > 0 {
      var y := x - Low(x, p);
      assert y / 2 == x / 2 - Low(x / 2, p - 1);
      ShrCleared(x / 2, p - 1, q - 1);
    }
  }
}
