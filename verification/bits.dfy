/** Bitwise operators on non-negative integers.

    JavaScript's `&`, `|` and `^` convert their operands to signed 32-bit
    integers.  On operands in [0, 2^31) that conversion is the identity, so on
    that range the operators below, defined bit by bit on `nat`, compute
    exactly what the emulator's JavaScript computes. */
module Bits {

  /** The machine word bound: every register and memory cell stays below it. */
  const WordBound: nat := 0x8000_0000

  function Pow2(k: nat): (r: nat)
    ensures r >= 1
  {
    if k == 0 then 1 else 2 * Pow2(k - 1)
  }

  lemma Pow2Values()
    ensures Pow2(4) == 0x10 && Pow2(7) == 0x80 && Pow2(8) == 0x100
    ensures Pow2(12) == 0x1000 && Pow2(16) == 0x1_0000
    ensures Pow2(30) == 0x4000_0000 && Pow2(31) == WordBound
  {
    assert Pow2(10) == 0x400;
    assert Pow2(20) == 0x10_0000;
  }

  /** The quotient and remainder of a division are determined by any
      decomposition `v == q * d + r` with `0 <= r < d`. */
  lemma DivModUnique(v: int, d: int, q: int, r: int)
    requires d > 0 && 0 <= r < d && v == q * d + r
    ensures v / d == q && v % d == r
  {
    var q0, r0 := v / d, v % d;
    assert v == q0 * d + r0;
    if q > q0 {
      MulAtLeast(q - q0, d);
    } else if q < q0 {
      MulAtLeast(q0 - q, d);
    }
  }

  /** Dividing by `a` and then by `b` is dividing by `a * b`; the remainder
      is made of the two remainders. */
  lemma DivDiv(v: nat, a: nat, b: nat)
    requires a > 0 && b > 0
    ensures v / (a * b) == (v / a) / b
    ensures v % (a * b) == ((v / a) % b) * a + v % a
  {
    var q, r := v / a, v % a;
    var q2, r2 := q / b, q % b;
    Regroup(q, a, r, q2, b, r2);
    RemainderBelow(r2, a, r, b);
    DivModUnique(v, a * b, q2, r2 * a + r);
  }

  /** `(q2 * b + r2) * a + r == q2 * (a * b) + (r2 * a + r)` */
  lemma Regroup(q: int, a: int, r: int, q2: int, b: int, r2: int)
    requires q == q2 * b + r2
    ensures q * a + r == q2 * (a * b) + (r2 * a + r)
  {
    calc {
      q * a + r;
      (q2 * b + r2) * a + r;
      q2 * b * a + r2 * a + r;
      q2 * (a * b) + (r2 * a + r);
    }
  }

  lemma RemainderBelow(r2: int, a: int, r: int, b: int)
    requires 0 <= r2 < b && 0 <= r < a
    ensures r2 * a + r < a * b
  {
    assert r2 * a <= (b - 1) * a;
  }

  lemma MulAtLeast(k: int, d: int)
    requires k >= 1 && d > 0
    ensures k * d >= d
  {
  }

  /** `a & b` */
  function BitAnd(a: nat, b: nat): (r: nat)
    ensures r <= a && r <= b
    decreases a
  {
    if a == 0 || b == 0 then 0
    else 2 * BitAnd(a / 2, b / 2) + (if a % 2 == 1 && b % 2 == 1 then 1 else 0)
  }

  /** `a | b` */
  function BitOr(a: nat, b: nat): (r: nat)
    ensures a <= r && b <= r && r <= a + b
    decreases a + b
  {
    if a == 0 then b
    else if b == 0 then a
    else 2 * BitOr(a / 2, b / 2) + (if a % 2 == 1 || b % 2 == 1 then 1 else 0)
  }

  /** `a ^ b` */
  function BitXor(a: nat, b: nat): (r: nat)
    ensures r <= a + b
    decreases a + b
  {
    if a == 0 then b
    else if b == 0 then a
    else 2 * BitXor(a / 2, b / 2) + (if a % 2 != b % 2 then 1 else 0)
  }

  /** Bit `k` of `v`. */
  predicate TestBit(v: nat, k: nat)
  {
    (v / Pow2(k)) % 2 == 1
  }

  lemma {:induction false} OrBelow(a: nat, b: nat, k: nat)
    requires a < Pow2(k) && b < Pow2(k)
    ensures BitOr(a, b) < Pow2(k)
  {
    if a != 0 && b != 0 {
      OrBelow(a / 2, b / 2, k - 1);
    }
  }

  lemma {:induction false} XorBelow(a: nat, b: nat, k: nat)
    requires a < Pow2(k) && b < Pow2(k)
    ensures BitXor(a, b) < Pow2(k)
  {
    if a != 0 && b != 0 {
      XorBelow(a / 2, b / 2, k - 1);
    }
  }

  /** Masking with a single bit yields either that bit or zero:
      `v & (1 << k)` is `1 << k` exactly when bit `k` of `v` is set. */
  lemma {:induction false} AndPow2(v: nat, k: nat)
    ensures BitAnd(v, Pow2(k)) == if TestBit(v, k) then Pow2(k) else 0
  {
    if k == 0 {
      if v != 0 {
        assert BitAnd(v / 2, 0) == 0;
      }
    } else if v == 0 {
      assert 0 / Pow2(k) == 0;
    } else {
      AndPow2(v / 2, k - 1);
      assert Pow2(k) / 2 == Pow2(k - 1) && Pow2(k) % 2 == 0;
      DivHalf(v, k);
    }
  }

  /** Bit `k` of `a & b` is set exactly when it is set in both `a` and `b`. */
  lemma {:induction false} AndTestBit(a: nat, b: nat, k: nat)
    ensures TestBit(BitAnd(a, b), k) == (TestBit(a, k) && TestBit(b, k))
  {
    var r := BitAnd(a, b);
    if a == 0 || b == 0 {
      assert r == 0;
    } else if k > 0 {
      DivHalf(r, k);
      DivHalf(a, k);
      DivHalf(b, k);
      assert r / 2 == BitAnd(a / 2, b / 2);
      AndTestBit(a / 2, b / 2, k - 1);
    }
  }

  lemma DivHalf(v: nat, k: nat)
    requires k > 0
    ensures v / Pow2(k) == (v / 2) / Pow2(k - 1)
  {
    var p := Pow2(k - 1);
    var q := (v / 2) / p;
    var r := (v / 2) % p;
    assert v / 2 == q * p + r;
    assert v == q * (2 * p) + (2 * r + v % 2);
    DivModUnique(v, 2 * p, q, 2 * r + v % 2);
  }

  /** The low `k` bits of `v`, taken one at a time. */
  function LowBits(v: nat, k: nat): nat
  {
    if k == 0 then 0 else 2 * LowBits(v / 2, k - 1) + v % 2
  }

  /** A low mask of k ones keeps the value modulo 2^k: `v & (2^k - 1) == v % 2^k`,
      which is how `x & 0xff` and `x & 0xFFF` are modelled. */
  lemma AndLowMask(v: nat, k: nat)
    ensures BitAnd(v, Pow2(k) - 1) == v % Pow2(k)
  {
    AndLowBits(v, k);
    LowBitsMod(v, k);
  }

  lemma {:induction false} AndLowBits(v: nat, k: nat)
    ensures BitAnd(v, Pow2(k) - 1) == LowBits(v, k)
  {
    if k > 0 && v != 0 {
      var m := Pow2(k - 1) - 1;
      assert Pow2(k) - 1 == 2 * m + 1;
      assert (2 * m + 1) / 2 == m && (2 * m + 1) % 2 == 1;
      assert BitAnd(v, 2 * m + 1) == 2 * BitAnd(v / 2, m) + v % 2;
      AndLowBits(v / 2, k - 1);
    } else if k > 0 {
      AndLowBits(0, k - 1);
    }
  }

  lemma {:induction false} LowBitsMod(v: nat, k: nat)
    ensures LowBits(v, k) == v % Pow2(k)
  {
    if k > 0 {
      LowBitsMod(v / 2, k - 1);
      ModHalf(v, k);
    }
  }

  lemma ModHalf(v: nat, k: nat)
    requires k > 0
    ensures v % Pow2(k) == 2 * ((v / 2) % Pow2(k - 1)) + v % 2
  {
    var p := Pow2(k - 1);
    var q := (v / 2) / p;
    var r := (v / 2) % p;
    assert v / 2 == q * p + r;
    assert v == q * (2 * p) + (2 * r + v % 2);
    DivModUnique(v, 2 * p, q, 2 * r + v % 2);
  }

  /** Or-ing a value shifted left by k bits with a value below 2^k is addition:
      `(hi << k) | lo == hi * 2^k + lo`. */
  lemma {:induction false} OrDisjoint(hi: nat, lo: nat, k: nat)
    requires lo < Pow2(k)
    ensures BitOr(hi * Pow2(k), lo) == hi * Pow2(k) + lo
  {
    if k > 0 && hi != 0 && lo != 0 {
      var p := Pow2(k - 1);
      assert hi * Pow2(k) == 2 * (hi * p);
      assert (hi * Pow2(k)) / 2 == hi * p && (hi * Pow2(k)) % 2 == 0;
      OrDisjoint(hi, lo / 2, k - 1);
    }
  }

  /** A mask applies to the bits above position k and to those below it
      separately: the `&` of two values, each written as a high part
      shifted left by k plus a low part below 2^k, is the `&` of the high
      parts shifted left by k plus the `&` of the low parts. */
  lemma {:induction false} AndSplit(v: nat, m: nat, hv: nat, lv: nat, hm: nat, lm: nat, k: nat)
    requires v == hv * Pow2(k) + lv && m == hm * Pow2(k) + lm
    requires lv < Pow2(k) && lm < Pow2(k)
    ensures BitAnd(v, m) == BitAnd(hv, hm) * Pow2(k) + BitAnd(lv, lm)
  {
    if k == 0 {
      assert Pow2(k) == 1 && lv == 0 && lm == 0;
      assert v == hv && m == hm;
    } else {
      var p := Pow2(k - 1);
      ShiftOne(hv, lv, p);
      ShiftOne(hm, lm, p);
      var hq, mq := hv * p + lv / 2, hm * p + lm / 2;
      assert Pow2(k) == 2 * p;
      AndSplit(hq, mq, hv, lv / 2, hm, lm / 2, k - 1);
      AndDouble(v, m, hq, mq, lv % 2, lm % 2);
      AndDouble(lv, lm, lv / 2, lm / 2, lv % 2, lm % 2);
      ShiftOne(BitAnd(hv, hm), 0, p);
    }
  }

  /** One more place of shift: `h * 2p + l == 2 * (h * p + l / 2) + l % 2`. */
  lemma ShiftOne(h: nat, l: nat, p: nat)
    ensures h * (2 * p) + l == 2 * (h * p + l / 2) + l % 2
  {
  }

  /** Appending one bit to each operand appends their `&` to the result. */
  lemma AndDouble(v: nat, w: nat, a: nat, c: nat, p: nat, q: nat)
    requires p < 2 && q < 2 && v == 2 * a + p && w == 2 * c + q
    ensures BitAnd(v, w) == 2 * BitAnd(a, c) + (if p == 1 && q == 1 then 1 else 0)
  {
    if v != 0 && w != 0 {
      assert v / 2 == a && v % 2 == p;
      assert w / 2 == c && w % 2 == q;
    }
  }
}
