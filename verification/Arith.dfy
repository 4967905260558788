/**
  Upper halves of 128-bit products from 32-bit pieces, and saturating addition. Registers are
  naturals below their limit; every place where the machine wraps is written out.
  */
module Arith {

  const B: nat := 0x1_0000_0000
  const LIMIT: nat := 0x1_0000_0000_0000_0000
  const HALF: int := 0x8000_0000_0000_0000

  // ---------------------------------------------------------------------------------------
  // Multiplication
  // ---------------------------------------------------------------------------------------

  lemma {:induction false} ProductBound(x: nat, y: nat)
    requires x < B && y < B
    ensures x * y <= (B - 1) * (B - 1)
  {
    Monotone(x, y, B - 1);
  }

  lemma {:induction false} Monotone(x: nat, y: nat, m: nat)
    requires x <= m && y <= m
    ensures x * y <= m * m
  {
    assert x * y <= m * y;
    assert m * y <= m * m;
  }

  /** The product from the four products of the halves. */
  lemma {:induction false} ProductOfHalves(a: nat, b: nat, a0: nat, a1: nat, b0: nat, b1: nat)
    requires a == a1 * B + a0 && b == b1 * B + b0
    ensures a * b == a1 * b1 * LIMIT + (a1 * b0 + a0 * b1) * B + a0 * b0
  {
    calc {
      a * b;
      (a1 * B + a0) * (b1 * B + b0);
      a1 * B * (b1 * B) + a1 * B * b0 + a0 * (b1 * B) + a0 * b0;
    }
    assert a1 * B * (b1 * B) == a1 * b1 * (B * B);
    assert a1 * B * b0 == a1 * b0 * B;
    assert a0 * (b1 * B) == a0 * b1 * B;
  }

  /** Carries: the upper half in terms of the four products. */
  lemma {:induction false} UpperHalf(p11: nat, p10: nat, p01: nat, p00: nat)
    ensures var t := p10 + p00 / B;
            (p11 * LIMIT + (p10 + p01) * B + p00) / LIMIT == p11 + t / B + (p01 + t % B) / B
  {
    var t := p10 + p00 / B;
    var u := p01 + t % B;
    assert p00 == p00 / B * B + p00 % B;
    assert t == t / B * B + t % B;
    assert u == u / B * B + u % B;
    var low := u % B * B + p00 % B;
    assert p11 * LIMIT + (p10 + p01) * B + p00 == (p11 + t / B + u / B) * LIMIT + low;
  }

  /** The upper half of the product of two unsigned registers. */
  method Mulhu(a: nat, b: nat) returns (r: nat)
    requires a < LIMIT && b < LIMIT
    ensures r == a * b / LIMIT && r < LIMIT
  {
    var a0, a1 := a % B, a / B;
    var b0, b1 := b % B, b / B;
    ghost var p11, p10, p01, p00 := a1 * b1, a1 * b0, a0 * b1, a0 * b0;
    ProductBound(a1, b1);
    ProductBound(a1, b0);
    ProductBound(a0, b1);
    ProductBound(a0, b0);
    ProductOfHalves(a, b, a0, a1, b0, b1);
    UpperHalf(p11, p10, p01, p00);
    r := AddCarries(a1 * b1, a1 * b0, a0 * b1, a0 * b0);
    InRange(a, b, r);
  }

  lemma {:induction false} InRange(a: nat, b: nat, r: nat)
    requires a < LIMIT && b < LIMIT && r == a * b / LIMIT
    ensures r < LIMIT
  {
    Monotone(a, b, LIMIT - 1);
  }

  /** The steps on the four products, each in a 64-bit register. */
  method AddCarries(p11: nat, p10: nat, p01: nat, p00: nat) returns (r: nat)
    requires p11 <= (B - 1) * (B - 1) && p10 <= (B - 1) * (B - 1) && p01 <= (B - 1) * (B - 1)
             && p00 <= (B - 1) * (B - 1)
    ensures var t := p10 + p00 / B; r == p11 + t / B + (p01 + t % B) / B
  {
    Small(p10, p00 / B);
    var t := (p10 + p00 / B) % LIMIT;
    var y1 := t % B;
    var y2 := t / B % B;
    InHalves(t);
    Small(p01, y1);
    t := (p01 + y1) % LIMIT;
    UpperSum(p11, y2, t / B);
    t := (p11 + y2 + t / B) % LIMIT;
    y2 := t % B;
    var y3 := t / B % B;
    InHalves(t);
    r := y3 * B + y2;
  }

  lemma {:induction false} InHalves(t: nat)
    requires t < LIMIT
    ensures t / B % B == t / B && t / B * B + t % B == t
  {
  }

  lemma {:induction false} UpperSum(p: nat, a: nat, b: nat)
    requires p <= (B - 1) * (B - 1) && a < B && b < B
    ensures p + a + b < LIMIT && (p + a + b) % LIMIT == p + a + b
  {
  }

  lemma {:induction false} Small(p: nat, c: nat)
    requires p <= (B - 1) * (B - 1) && c < B
    ensures p + c < LIMIT && (p + c) % LIMIT == p + c && (p + c) / B < B
  {
  }

  function Magnitude(x: int): nat {
    if x < 0 then -x else x
  }

  /** Signed division by a power of two rounds down. */
  function UpperSigned(p: int): int {
    p / LIMIT
  }

  /** The upper half of a signed product, as a register, from magnitude and sign. */
  function FromMagnitude(hi: nat, negate: bool, lowIsZero: bool): nat
    requires hi < LIMIT
  {
    if negate then (LIMIT - 1 - hi + (if lowIsZero then 1 else 0)) % LIMIT else hi
  }

  /** The result is the register that holds the upper half of the exact product. */
  lemma {:induction false} SignedUpper(x: int, y: int, hi: nat)
    requires -HALF <= x < HALF && -HALF <= y < LIMIT && hi == Magnitude(x) * Magnitude(y) / LIMIT && hi < LIMIT
    ensures var negate := (x < 0) != (y < 0);
            FromMagnitude(hi, negate, x * y % LIMIT == 0) == UpperSigned(x * y) % LIMIT
  {
    var p := Magnitude(x) * Magnitude(y);
    Signs(x, y);
    if (x < 0) != (y < 0) {
      assert x * y == -p;
      NegatedDivision(p, hi);
    } else {
      assert x * y == p;
    }
  }

  lemma {:induction false} Signs(x: int, y: int)
    ensures x * y == if (x < 0) != (y < 0) then -(Magnitude(x) * Magnitude(y)) else Magnitude(x) * Magnitude(y)
  {
  }

  lemma {:induction false} NegatedDivision(p: int, hi: int)
    requires 0 <= p && 0 <= hi && hi == p / LIMIT && hi < LIMIT
    ensures FromMagnitude(hi, true, (-p) % LIMIT == 0) == UpperSigned(-p) % LIMIT
  {
    assert p == hi * LIMIT + p % LIMIT;
    if p % LIMIT == 0 {
      assert -p == (-hi) * LIMIT;
      assert (-p) % LIMIT == 0 && (-p) / LIMIT == -hi;
    } else {
      assert -p == (-hi - 1) * LIMIT + (LIMIT - p % LIMIT);
      assert (-p) % LIMIT == LIMIT - p % LIMIT && (-p) / LIMIT == -hi - 1;
    }
  }

  /** The upper half of the product of two signed registers. */
  method Mulh(a: int, b: int) returns (r: nat)
    requires -HALF <= a < HALF && -HALF <= b < HALF
    ensures r == UpperSigned(a * b) % LIMIT
  {
    var negate := (a < 0) != (b < 0);
    var hi := Mulhu(Magnitude(a), Magnitude(b));
    SignedUpper(a, b, hi);
    r := FromMagnitude(hi, negate, a * b % LIMIT == 0);
  }

  /** The upper half of the product of a signed and an unsigned register. */
  method Mulhsu(a: int, b: nat) returns (r: nat)
    requires -HALF <= a < HALF && b < LIMIT
    ensures r == UpperSigned(a * b) % LIMIT
  {
    var negate := a < 0;
    var hi := Mulhu(Magnitude(a), b);
    SignedUpper(a, b, hi);
    r := FromMagnitude(hi, negate, a * b % LIMIT == 0);
  }

  // ---------------------------------------------------------------------------------------
  // Saturating addition, for registers of any width with values from -h to h - 1
  // ---------------------------------------------------------------------------------------

  function Clamp(x: int, h: int): int {
    if x < -h then -h else if x >= h then h - 1 else x
  }

  predicate Fits(x: int, h: int) {
    -h <= x < h
  }

  /** Two's complement. */
  function Raw(x: int, h: int): int
    requires Fits(x, h)
  {
    if x < 0 then x + 2 * h else x
  }

  function Value(u: int, h: int): int {
    if u >= h then u - 2 * h else u
  }

  /** The sum of two registers, or the nearest value that fits. */
  method SatAdd(x: int, y: int, h: int) returns (r: int, sat: bool)
    requires h > 0 && Fits(x, h) && Fits(y, h)
    ensures r == Clamp(x + y, h) && sat == !Fits(x + y, h)
  {
    var ux, uy := Raw(x, h), Raw(y, h);
    var sum := ux + uy;
    var res := if sum >= 2 * h then sum - 2 * h else sum;
    sat := false;
    ux := (if ux >= h then 1 else 0) + (h - 1);
    // The sign bit of (ux ^ uy) | ~(uy ^ res) is clear: ux and uy agree in it, uy and res do not.
    if (ux >= h) == (uy >= h) && (uy >= h) != (res >= h) {
      res := ux;
      sat := true;
    }
    r := Value(res, h);
  }

  /** Three operands: one of a sign that cannot overflow is added first. */
  method SatAdd3(x: int, y: int, z: int, h: int) returns (r: int, sat: bool)
    requires h > 0 && Fits(x, h) && Fits(y, h) && Fits(z, h)
    ensures r == Clamp(x + y + z, h) && sat == !Fits(x + y + z, h)
  {
    var a, b := y, z;
    if (y < 0) != (z < 0) && (x < 0) != (z < 0) {
      a, b := z, y;
    }
    var sat1, sat2;
    r, sat1 := SatAdd(x, a, h);
    r, sat2 := SatAdd(r, b, h);
    sat := sat1 || sat2;
  }

  /** The difference of two registers, or the nearest value that fits. */
  method SatSub(x: int, y: int, h: int) returns (r: int, sat: bool)
    requires h > 0 && Fits(x, h) && Fits(y, h)
    ensures r == Clamp(x - y, h) && sat == !Fits(x - y, h)
  {
    var ux, uy := Raw(x, h), Raw(y, h);
    var diff := ux - uy;
    var res := if diff < 0 then diff + 2 * h else diff;
    sat := false;
    ux := (if ux >= h then 1 else 0) + (h - 1);
    // The sign bit of (ux ^ uy) & (ux ^ res) is set: ux differs in it from both.
    if (ux >= h) != (uy >= h) && (ux >= h) != (res >= h) {
      res := ux;
      sat := true;
    }
    r := Value(res, h);
  }
}
