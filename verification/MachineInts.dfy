/**
  Integers of a machine: bit patterns of a given width as natural numbers, their signed reading,
  and the arithmetic that wraps around.
 */
module MachineInts {
  import opened Basics

  datatype Dt = I8 | I16 | I32 | I64

  function Bits(dt: Dt): nat {
    match dt case I8 => 8 case I16 => 16 case I32 => 32 case I64 => 64
  }

  function Modulus(dt: Dt): (m: nat)
    ensures m > 0
  {
    match dt case I8 => 0x100 case I16 => 0x1_0000 case I32 => 0x1_0000_0000 case I64 => 0x1_0000_0000_0000_0000
  }

  lemma Pow2Values()
    ensures Pow2(8) == 0x100 && Pow2(16) == 0x1_0000 && Pow2(32) == 0x1_0000_0000 && Pow2(64) == 0x1_0000_0000_0000_0000
  {
    assert Pow2(8) == 0x100;
    Pow2Doubles(8, 0x100);
    Pow2Doubles(16, 0x1_0000);
    Pow2Doubles(32, 0x1_0000_0000);
  }

  lemma Pow2Doubles(k: nat, v: nat)
    requires Pow2(k) == v
    ensures Pow2(2 * k) == v * v
  {
    Pow2Adds(k, k);
  }

  lemma ModulusIsPow2(dt: Dt)
    ensures Modulus(dt) == Pow2(Bits(dt)) && Modulus(dt) == 2 * Pow2(Bits(dt) - 1)
  {
    Pow2Values();
    Pow2Halves(Bits(dt));
  }

  lemma Pow2Halves(k: nat)
    requires k > 0
    ensures Pow2(k) == 2 * Pow2(k - 1)
  {
  }

  lemma {:induction false} Pow2Adds(a: nat, b: nat)
    ensures Pow2(a + b) == Pow2(a) * Pow2(b)
  {
    if a > 0 { Pow2Adds(a - 1, b); }
  }

  /** The pattern of a value. */
  function Wrap(v: int, dt: Dt): (p: nat)
    ensures p < Modulus(dt)
  {
    v % Modulus(dt)
  }

  /** The signed reading of a pattern. */
  function Signed(p: nat, dt: Dt): int {
    if p < Modulus(dt) / 2 then p else p - Modulus(dt)
  }

  /** Division that truncates toward zero. */
  function Quot(a: int, b: int): int
    requires b != 0
  {
    if a >= 0 then a / b else -((-a) / b)
  }

  /** The remainder has the sign of the dividend. */
  function Remainder(a: int, b: int): int
    requires b != 0
  {
    if a >= 0 then a % b else -((-a) % b)
  }

  lemma QuotRemainder(a: int, b: int)
    requires b != 0
    ensures a == Quot(a, b) * b + Remainder(a, b)
  {
    if a >= 0 {
      assert a == b * (a / b) + a % b;
    } else {
      assert -a == b * ((-a) / b) + (-a) % b;
      assert Quot(a, b) * b == -(b * ((-a) / b));
    }
  }

  // ---- bitwise operations ----

  datatype Gate = AndGate | OrGate | XorGate | AndNotGate

  function GateOf(g: Gate, a: nat, b: nat): nat
    requires a < 2 && b < 2
  {
    match g
    case AndGate => a * b
    case OrGate => if a + b > 0 then 1 else 0
    case XorGate => if a == b then 0 else 1
    case AndNotGate => if a == 1 && b == 0 then 1 else 0
  }

  function Bitwise(g: Gate, a: nat, b: nat): nat
    decreases a + b
  {
    if a == 0 && b == 0 then 0 else GateOf(g, a % 2, b % 2) + 2 * Bitwise(g, a / 2, b / 2)
  }

  // ---- congruence ----

  /** Values that differ by a multiple of m have the same remainder. */
  lemma SameRemainder(x: int, y: int, m: int, k: int)
    requires m > 0 && x == y + m * k
    ensures x % m == y % m
  {
    var d := x / m - y / m - k;
    assert x == m * (x / m) + x % m && y == m * (y / m) + y % m;
    assert m * d == m * (x / m) - m * (y / m) - m * k;
    Apart(m, d);
  }

  /** Reducing first by a multiple of m changes nothing. */
  lemma WrapTwice(x: int, m: int, q: int)
    requires m > 0 && q > 0
    ensures m * q > 0 && (x % (m * q)) % m == x % m
  {
    assert m * q > 0 by { Apart(m, q); }
    var k := x / (m * q);
    assert x == (m * q) * k + x % (m * q);
    assert x == x % (m * q) + m * (q * k);
    SameRemainder(x, x % (m * q), m, q * k);
  }

  /** The factor between the moduli of two widths. */
  lemma NarrowDivides(narrow: Dt)
    requires narrow == I8 || narrow == I16
    ensures var q := if narrow == I8 then 0x100_0000 else 0x1_0000; Modulus(I32) == Modulus(narrow) * q
  {
  }

  lemma TruncateWide(v: int, narrow: Dt)
    requires narrow == I8 || narrow == I16
    ensures Wrap(Wrap(v, I32), narrow) == Wrap(v, narrow)
  {
    NarrowDivides(narrow);
    WrapTwice(v, Modulus(narrow), if narrow == I8 then 0x100_0000 else 0x1_0000);
  }

  lemma SignedWraps(p: nat, dt: Dt)
    requires p < Modulus(dt)
    ensures Wrap(Signed(p, dt), dt) == p && -(Modulus(dt) / 2) <= Signed(p, dt) < Modulus(dt) / 2
  {
    if p >= Modulus(dt) / 2 { SameRemainder(Signed(p, dt), p, Modulus(dt), -1); }
    SmallRemainder(p, Modulus(dt));
  }

  /** A value in the signed range of a width is what its pattern reads back to. */
  lemma WrapSigned(v: int, dt: Dt)
    requires -(Modulus(dt) / 2) <= v < Modulus(dt) / 2
    ensures Signed(Wrap(v, dt), dt) == v
  {
    if v < 0 {
      SameRemainder(v, v + Modulus(dt), Modulus(dt), -1);
      SmallRemainder(v + Modulus(dt), Modulus(dt));
    } else {
      SmallRemainder(v, Modulus(dt));
    }
  }

  /** a - d * b modulo m depends on the remainders only. */
  lemma MulSubCongruent(a: int, a': int, d: int, d': int, b: int, b': int, m: int, i: int, j: int, k: int)
    requires m > 0 && a == a' + m * i && d == d' + m * j && b == b' + m * k
    ensures (a - d * b) % m == (a' - d' * b') % m
  {
    var t := i - (d' * k + j * b' + m * j * k);
    assert d * b == d' * b' + m * (d' * k + j * b' + m * j * k) by {
      ProductSplits(d', m, j, b', k);
    }
    assert a - d * b == (a' - d' * b') + m * t by {
      assert m * t == m * i - m * (d' * k + j * b' + m * j * k);
    }
    SameRemainder(a - d * b, a' - d' * b', m, t);
  }

  lemma ProductSplits(d: int, m: int, j: int, b: int, k: int)
    ensures (d + m * j) * (b + m * k) == d * b + m * (d * k + j * b + m * j * k)
  {
    assert (d + m * j) * (b + m * k) == d * b + d * (m * k) + (m * j) * b + (m * j) * (m * k);
    assert d * (m * k) == m * (d * k) && (m * j) * b == m * (j * b) && (m * j) * (m * k) == m * (m * j * k);
  }

  // ---- shifts ----

  lemma {:induction false} Pow2Grows(a: nat, b: nat)
    requires a <= b
    ensures Pow2(a) <= Pow2(b)
  {
    if a < b { Pow2Grows(a, b - 1); }
  }

  /** The quotient is the q whose multiple lies below x and less than p away. */
  lemma QuotientIs(x: int, p: nat, q: int)
    requires p > 0 && p * q <= x < p * q + p
    ensures x / p == q
  {
    var d := x / p - q;
    assert x == p * (x / p) + x % p;
    assert p * d == p * (x / p) - p * q;
    Apart(p, d);
  }

  lemma SignOnly(s: int, p: nat)
    requires p > 0 && -(p as int) <= s < p
    ensures s / p == if s < 0 then -1 else 0
  {
    QuotientIs(s, p, if s < 0 then -1 else 0);
  }

  /** Shifting right by the width less one or more leaves the sign. */
  lemma SignRemains(s: int, k: nat)
    requires -(Pow2(k) as int) <= s < Pow2(k)
    ensures s / Pow2(k) == if s < 0 then -1 else 0
  {
    SignOnly(s, Pow2(k));
  }

  lemma ShiftedOut(a: nat, k: nat)
    requires a < Pow2(k)
    ensures a / Pow2(k) == 0
  {
    SignRemains(a, k);
  }

  lemma MulSwap(a: nat, p: nat, r: nat)
    ensures a * (p * r) == p * (a * r)
  {
  }

  /** Shifting left by the width or more leaves nothing. */
  lemma ShiftedAway(a: nat, c: nat, dt: Dt)
    requires c >= Bits(dt)
    ensures (a * Pow2(c)) % Modulus(dt) == 0
  {
    var w, r := Bits(dt), c - Bits(dt);
    ModulusIsPow2(dt);
    Pow2Adds(w, r);
    MulSwap(a, Pow2(w), Pow2(r));
    SameRemainder(a * Pow2(c), 0, Modulus(dt), a * Pow2(r));
  }
}
