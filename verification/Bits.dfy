/** Bitwise arithmetic on natural numbers, one bit at a time, as Python's unbounded integers have it. */
module Bits {
  function Pow2(k: nat): (p: nat)
    ensures p > 0
  {
    if k == 0 then 1 else 2 * Pow2(k - 1)
  }

  function Xor(a: nat, b: nat): nat
    decreases a + b
  {
    if a == 0 && b == 0 then 0 else 2 * Xor(a / 2, b / 2) + (if a % 2 == b % 2 then 0 else 1)
  }

  function And(a: nat, b: nat): nat {
    if a == 0 then 0 else 2 * And(a / 2, b / 2) + (if a % 2 == 1 && b % 2 == 1 then 1 else 0)
  }

  function Or(a: nat, b: nat): nat
    decreases a + b
  {
    if a == 0 && b == 0 then 0 else 2 * Or(a / 2, b / 2) + (if a % 2 == 0 && b % 2 == 0 then 0 else 1)
  }

  function Shl(a: nat, k: nat): nat {
    a * Pow2(k)
  }

  function Shr(a: nat, k: nat): nat {
    if k == 0 then a else Shr(a / 2, k - 1)
  }

  /** The unsigned reading of a two's-complement 64-bit integer; also what wrap-around keeps. */
  /** A 64-bit word read as a two's complement integer. */
  function Signed(word: nat): int {
    if word < 0x8000_0000_0000_0000 then word else word - 0x1_0000_0000_0000_0000
  }

  function Word(x: int): nat {
    x % 0x1_0000_0000_0000_0000
  }

  lemma Pow2Literals()
    ensures Pow2(16) == 0x1_0000 && Pow2(30) == 0x4000_0000 && Pow2(31) == 0x8000_0000
    ensures Pow2(10) == 1024 && Pow2(15) == 32768
    ensures Pow2(48) == 0x1_0000_0000_0000 && Pow2(54) == 0x40_0000_0000_0000
    ensures Pow2(63) == 0x8000_0000_0000_0000 && Pow2(64) == 0x1_0000_0000_0000_0000
  {
    assert Pow2(8) == 256;
    assert Pow2(10) == 1024;
    assert Pow2(15) == 32768;
    assert Pow2(16) == 0x1_0000;
    assert Pow2(24) == 0x100_0000;
    assert Pow2(30) == 0x4000_0000;
    assert Pow2(31) == 0x8000_0000;
    assert Pow2(38) == 0x40_0000_0000;
    assert Pow2(46) == 0x4000_0000_0000;
    assert Pow2(48) == 0x1_0000_0000_0000;
    assert Pow2(54) == 0x40_0000_0000_0000;
    assert Pow2(60) == 0x1000_0000_0000_0000;
    assert Pow2(63) == 0x8000_0000_0000_0000;
  }

  lemma {:induction false} XorBasics(a: nat)
    ensures Xor(a, 0) == a && Xor(0, a) == a && Xor(a, a) == 0
  {
    if a != 0 {
      XorBasics(a / 2);
    }
  }

  lemma {:induction false} XorAssociative(a: nat, b: nat, c: nat)
    ensures Xor(Xor(a, b), c) == Xor(a, Xor(b, c))
    decreases a + b + c
  {
    if a == 0 {
      XorBasics(b);
      XorBasics(Xor(b, c));
    } else if b == 0 {
      XorBasics(a);
      XorBasics(c);
    } else if c == 0 {
      XorBasics(Xor(a, b));
      XorBasics(b);
    } else {
      XorAssociative(a / 2, b / 2, c / 2);
      assert Xor(a, b) / 2 == Xor(a / 2, b / 2) && Xor(b, c) / 2 == Xor(b / 2, c / 2);
    }
  }

  /** Xoring the same value in twice cancels. */
  lemma XorCancels(a: nat, b: nat)
    ensures Xor(Xor(a, b), b) == a
  {
    XorAssociative(a, b, b);
    XorBasics(b);
    XorBasics(a);
  }

  lemma {:induction false} XorBounded(a: nat, b: nat, k: nat)
    requires a < Pow2(k) && b < Pow2(k)
    ensures Xor(a, b) < Pow2(k)
  {
    if k > 0 {
      XorBounded(a / 2, b / 2, k - 1);
    }
  }

  lemma {:induction false} ShrXor(a: nat, b: nat, k: nat)
    ensures Shr(Xor(a, b), k) == Xor(Shr(a, k), Shr(b, k))
  {
    if k > 0 {
      ShrXor(a / 2, b / 2, k - 1);
      assert Xor(a, b) / 2 == Xor(a / 2, b / 2);
    }
  }

  lemma {:induction false} ShrBounded(a: nat, k: nat, n: nat)
    requires a < Pow2(k + n)
    ensures Shr(a, k) < Pow2(n)
  {
    if k > 0 {
      ShrBounded(a / 2, k - 1, n);
    }
  }

  /** One bit of packing: `a` doubled makes room for the lowest bit of `low`. */
  lemma PackBit(a: nat, low: nat, p: nat, k: nat)
    requires p > 0 && k > 0
    ensures Or(2 * a, low) == 2 * Or(a, low / 2) + low % 2
    ensures Shr(2 * a + low, k) == Shr(a + low / 2, k - 1)
    ensures And(2 * a + low, 2 * p - 1) == 2 * And(a + low / 2, p - 1) + low % 2
  {
    assert (2 * a + low) / 2 == a + low / 2 && (2 * a + low) % 2 == low % 2;
    assert (2 * p - 1) / 2 == p - 1 && (2 * p - 1) % 2 == 1;
    if 2 * a + low == 0 {
      AndZero(0);
    }
  }

  /** Shifting left and or-ing a smaller number in packs both; shifting and masking take them out. */
  lemma {:induction false} PackedFields(high: nat, low: nat, k: nat)
    requires low < Pow2(k)
    ensures Or(Shl(high, k), low) == high * Pow2(k) + low
    ensures Shr(high * Pow2(k) + low, k) == high
    ensures And(high * Pow2(k) + low, Pow2(k) - 1) == low
  {
    if k == 0 {
      OrZero(high);
      AndZeroRight(high);
    } else {
      var p := Pow2(k - 1);
      PackedFields(high, low / 2, k - 1);
      DoubleProduct(high, p);
      PackedBit(high, high * p, low, p, k);
      assert high * Pow2(k) == 2 * (high * p);
      assert Pow2(k) - 1 == 2 * p - 1;
      hide Or, And, Shr, Pow2;
    }
  }

  lemma PackedBit(high: nat, a: nat, low: nat, p: nat, k: nat)
    requires p > 0 && k > 0
    requires Or(a, low / 2) == a + low / 2
    requires Shr(a + low / 2, k - 1) == high && And(a + low / 2, p - 1) == low / 2
    ensures Or(2 * a, low) == 2 * a + low
    ensures Shr(2 * a + low, k) == high
    ensures And(2 * a + low, 2 * p - 1) == low
  {
    PackBit(a, low, p, k);
    hide *;
  }

  lemma DoubleProduct(a: nat, p: nat)
    ensures a * (2 * p) == 2 * (a * p)
  {
  }

  lemma {:induction false} AndZeroRight(a: nat)
    ensures And(a, 0) == 0
  {
    if a != 0 {
      AndZeroRight(a / 2);
    }
  }

  lemma {:induction false} OrZero(a: nat)
    ensures Or(a, 0) == a
  {
    if a != 0 {
      OrZero(a / 2);
    }
  }

  lemma AndZero(b: nat)
    ensures And(0, b) == 0
  {
  }

  /** Masking with 2^k - 1 keeps the remainder modulo 2^k. */
  lemma MaskIsMod(a: nat, k: nat)
    ensures And(a, Pow2(k) - 1) == a % Pow2(k) < Pow2(k)
    ensures Shr(a, k) == a / Pow2(k)
  {
    var q, r := DivMod(a, Pow2(k));
    PackedFields(q, r, k);
  }

  lemma DivMod(a: nat, p: nat) returns (q: nat, r: nat)
    requires p > 0
    ensures q == a / p && r == a % p < p && a == q * p + r
  {
    q, r := a / p, a % p;
  }

  /** The k lowest bits. */
  function Low(a: nat, k: nat): nat {
    if k == 0 then 0 else 2 * Low(a / 2, k - 1) + a % 2
  }

  lemma {:induction false} LowXor(a: nat, b: nat, k: nat)
    ensures Low(Xor(a, b), k) == Xor(Low(a, k), Low(b, k))
  {
    if k == 0 {
      assert Xor(0, 0) == 0;
    } else {
      LowXor(a / 2, b / 2, k - 1);
      XorStep(a, b);
      LowStep(a, k);
      LowStep(b, k);
      LowStep(Xor(a, b), k);
      XorStep(Low(a, k), Low(b, k));
    }
  }

  lemma XorStep(a: nat, b: nat)
    ensures Xor(a, b) == 2 * Xor(a / 2, b / 2) + (if a % 2 == b % 2 then 0 else 1)
    ensures Xor(a, b) / 2 == Xor(a / 2, b / 2) && Xor(a, b) % 2 == if a % 2 == b % 2 then 0 else 1
  {
    if a == 0 && b == 0 {
      assert Xor(0, 0) == 0;
    }
  }

  lemma LowStep(a: nat, k: nat)
    requires k > 0
    ensures Low(a, k) == 2 * Low(a / 2, k - 1) + a % 2
    ensures Low(a, k) / 2 == Low(a / 2, k - 1) && Low(a, k) % 2 == a % 2
  {
  }

  lemma {:induction false} LowSmall(a: nat, k: nat)
    requires a < Pow2(k)
    ensures Low(a, k) == a
  {
    if k > 0 {
      LowSmall(a / 2, k - 1);
    }
  }

  lemma {:induction false} LowIsMod(a: nat, k: nat)
    ensures Low(a, k) == a % Pow2(k)
  {
    if k > 0 {
      LowIsMod(a / 2, k - 1);
      HalveMod(a, Pow2(k - 1));
      assert a % Pow2(k) == 2 * (a % Pow2(k) / 2) + a % Pow2(k) % 2;
    }
  }

  /** Xor works on the low bits alone: a k-bit operand meets the other one modulo 2^k. */
  lemma XorMod(a: nat, b: nat, k: nat, m: nat)
    requires m == Pow2(k) && b < m
    ensures Xor(a, b) % m == Xor(a % m, b) < m
  {
    LowXor(a, b, k);
    LowSmall(b, k);
    LowIsMod(a, k);
    LowIsMod(Xor(a, b), k);
    XorBounded(a % m, b, k);
  }

  lemma HalveMod(a: nat, p: nat)
    requires p > 0
    ensures (a % (2 * p)) / 2 == (a / 2) % p && (a % (2 * p)) % 2 == a % 2
  {
    var q, r := a / 2 / p, a / 2 % p;
    assert a / 2 == q * p + r;
    assert a == q * (2 * p) + (2 * r + a % 2);
    ModUnique(a, q, 2 * r + a % 2, 2 * p);
  }

  lemma ModUnique(a: int, q: int, r: int, m: int)
    requires a == q * m + r && 0 <= r < m
    ensures a % m == r && a / m == q
  {
    var q', r' := a / m, a % m;
    assert a == q' * m + r' && 0 <= r' < m;
    assert (q - q') * m == r' - r;
    if q > q' {
      MulMonotone(1, q - q', m);
    } else if q < q' {
      MulMonotone(q - q', -1, m);
    }
  }

  lemma MulMonotone(a: int, b: int, m: int)
    requires a <= b && m >= 0
    ensures a * m <= b * m
  {
    assert (b - a) * m >= 0;
  }

  // ---------------------------------------------------------------------------------------------
  // The two invertible steps of the mixer.

  function XorShift(x: nat, s: nat): nat {
    Xor(x, Shr(x, s))
  }

  /** Undoes XorShift on numbers of k bits. */
  function UnXorShift(y: nat, s: nat, k: nat): nat
    requires s > 0
    decreases k
  {
    if k <= s then y else Xor(y, UnXorShift(Shr(y, s), s, k - s))
  }

  lemma {:induction false} ShrOut(x: nat, k: nat, s: nat)
    requires x < Pow2(k) && k <= s
    ensures Shr(x, s) == 0
  {
    if s > 0 {
      if k > 0 {
        ShrOut(x / 2, k - 1, s - 1);
      } else {
        ShrOut(x / 2, 0, s - 1);
      }
    }
  }

  lemma {:induction false} XorShiftInvertible(x: nat, s: nat, k: nat)
    requires s > 0 && x < Pow2(k)
    ensures XorShift(x, s) < Pow2(k) && UnXorShift(x, s, k) < Pow2(k)
    ensures UnXorShift(XorShift(x, s), s, k) == x
    ensures XorShift(UnXorShift(x, s, k), s) == x
    decreases k
  {
    if k <= s {
      ShrOut(x, k, s);
      XorBasics(x);
    } else {
      var h := Shr(x, s);
      ShrBounded(x, s, k - s);
      Pow2Monotone(k - s, k);
      XorShiftInvertible(h, s, k - s);
      XorBounded(x, h, k);
      // Shifting the mixed value mixes the shifted value.
      ShrXor(x, h, s);
      XorCancels(x, h);
      UnXorShiftStep(x, s, k);
    }
  }

  /** Un-mixing, from un-mixing the shifted number. */
  lemma UnXorShiftStep(x: nat, s: nat, k: nat)
    requires 0 < s < k && x < Pow2(k)
    requires var w := UnXorShift(Shr(x, s), s, k - s); w < Pow2(k) && XorShift(w, s) == Shr(x, s)
    ensures UnXorShift(x, s, k) < Pow2(k) && XorShift(UnXorShift(x, s, k), s) == x
  {
    var w := UnXorShift(Shr(x, s), s, k - s);
    hide Pow2, Xor, Shr;
    XorBounded(x, w, k);
    ShrXor(x, w, s);
    XorCancels(w, Shr(w, s));
    XorCancels(x, w);
  }

  lemma {:induction false} Pow2Monotone(a: nat, b: nat)
    requires a <= b
    ensures Pow2(a) <= Pow2(b)
  {
    if a < b {
      Pow2Monotone(a, b - 1);
    }
  }

  /** Multiplication by c modulo m is undone by multiplication by its inverse. */
  lemma MulInvertible(x: nat, c: nat, inverse: nat, t: nat, m: nat)
    requires x < m && c * inverse == 1 + t * m
    ensures (x * c % m) * inverse % m == x
  {
    var q, r := x * c / m, x * c % m;
    assert r == x * c - q * m;
    assert r * inverse == x * (c * inverse) - q * m * inverse;
    assert x * (c * inverse) == x + x * t * m;
    assert r * inverse == (x * t - q * inverse) * m + x;
    ModUnique(r * inverse, x * t - q * inverse, x, m);
  }
}
