/** Deterministic 50/50 assignment: a 31-bit mixer for creators and a linear congruence for users. Both are
    permutations modulo 2^31, so each puts exactly half of any 2^31 consecutive ids into treatment. */
module Assignment {
  import opened Bits
  import opened Seqs

  const MODULUS: nat := 0x8000_0000
  const HALF: nat := 0x4000_0000
  const MASK: nat := 0x7FFF_FFFF
  const SALT: nat := 0x1B87_3593
  const MULTIPLIER: nat := 0x045D_9F3B
  const INVERSE: nat := 295559667

  /** `assign_binary_torch` before the comparison, on 64-bit two's complement. */
  function Mixed(id: int): nat {
    var v0 := And(Xor(Word(id), SALT), MASK);
    XorShift(Round(Round(v0)), 16)
  }

  function Round(v: nat): nat {
    And(XorShift(v, 16) * MULTIPLIER, MASK)
  }

  /** True is treatment. */
  predicate AssignBinary(id: int) {
    Mixed(id) < HALF
  }

  /** The user bucket, before its comparison with 2^30. */
  function UserBucket(id: int): nat {
    (id * 1_664_525 + 1_013_904_223) % MODULUS
  }

  predicate AssignUser(id: int) {
    UserBucket(id) < HALF
  }

  // ---------------------------------------------------------------------------------------------
  // Inverses.

  function Unshift(y: nat): nat {
    UnXorShift(y, 16, 31)
  }

  function Unmixed(bucket: nat): nat {
    var v2 := Unshift(Unshift(bucket) * INVERSE % MODULUS);
    Xor(Unshift(v2 * INVERSE % MODULUS), SALT)
  }

  lemma ModulusIsPow2()
    ensures MODULUS == Pow2(31) && MASK == Pow2(31) - 1 && SALT < MODULUS
  {
    Pow2Literals();
  }

  lemma ShiftInvertible(x: nat)
    requires x < MODULUS
    ensures XorShift(x, 16) < MODULUS && Unshift(x) < MODULUS
    ensures Unshift(XorShift(x, 16)) == x && XorShift(Unshift(x), 16) == x
  {
    ModulusIsPow2();
    XorShiftInvertible(x, 16, 31);
  }

  lemma RoundIsMod(v: nat)
    ensures Round(v) == XorShift(v, 16) * MULTIPLIER % MODULUS < MODULUS
  {
    ModulusIsPow2();
    MaskIsMod(XorShift(v, 16) * MULTIPLIER, 31);
  }

  lemma RoundInvertible(v: nat)
    requires v < MODULUS
    ensures Unshift(Round(v) * INVERSE % MODULUS) == v
    ensures Unshift(v * INVERSE % MODULUS) < MODULUS && Round(Unshift(v * INVERSE % MODULUS)) == v
  {
    RoundIsMod(v);
    ShiftInvertible(v);
    MulInvertible(XorShift(v, 16), MULTIPLIER, INVERSE, 10080688, MODULUS);
    ShiftInvertible(v * INVERSE % MODULUS);
    RoundIsMod(Unshift(v * INVERSE % MODULUS));
    MulInvertible(v, INVERSE, MULTIPLIER, 10080688, MODULUS);
  }

  lemma SaltedValue(id: int)
    ensures And(Xor(Word(id), SALT), MASK) == Xor(id % MODULUS, SALT) < MODULUS
  {
    ModulusIsPow2();
    MaskIsMod(Xor(Word(id), SALT), 31);
    XorMod(Word(id), SALT, 31, MODULUS);
    WordModulo(id);
  }

  lemma WordModulo(id: int)
    ensures Word(id) % MODULUS == id % MODULUS
  {
  }

  /** The mixer is a permutation of the residues modulo 2^31: `Unmixed` undoes it on both sides. */
  lemma MixThenUnmix(id: int)
    ensures Mixed(id) < MODULUS && Unmixed(Mixed(id)) == id % MODULUS
  {
    hide Round, XorShift, Unshift;
    SaltedValue(id);
    var v0 := Xor(id % MODULUS, SALT);
    RoundIsMod(v0);
    RoundIsMod(Round(v0));
    RoundInvertible(v0);
    RoundInvertible(Round(v0));
    ShiftInvertible(Round(Round(v0)));
    XorCancels(id % MODULUS, SALT);
  }

  lemma UnmixThenMix(bucket: nat)
    requires bucket < MODULUS
    ensures Unmixed(bucket) < MODULUS && Mixed(Unmixed(bucket)) == bucket
  {
    hide Round, XorShift, Unshift;
    ShiftInvertible(bucket);
    RoundInvertible(Unshift(bucket));
    var v2 := Unshift(Unshift(bucket) * INVERSE % MODULUS);
    RoundInvertible(v2);
    var v0 := Unshift(v2 * INVERSE % MODULUS);
    SaltedValue(Unmixed(bucket));
    Desalted(v0);
  }

  lemma Desalted(v0: nat)
    requires v0 < MODULUS
    ensures Xor(v0, SALT) < MODULUS && Xor(Xor(v0, SALT) % MODULUS, SALT) == v0
  {
    ModulusIsPow2();
    XorBounded(v0, SALT, 31);
    SmallMod(Xor(v0, SALT));
    XorCancels(v0, SALT);
  }

  lemma SmallMod(x: nat)
    requires x < MODULUS
    ensures x % MODULUS == x
  {
  }

  lemma UserBucketInverse(id: int, bucket: nat)
    ensures (UserBucket(id) - 1_013_904_223) * 2_128_632_005 % MODULUS == id % MODULUS
    ensures bucket < MODULUS ==> UserBucket((bucket - 1_013_904_223) * 2_128_632_005) == bucket
  {
    var q := (id * 1_664_525 + 1_013_904_223) / MODULUS;
    assert UserBucket(id) == id * 1_664_525 + 1_013_904_223 - q * MODULUS;
    ModShift(id, (UserBucket(id) - 1_013_904_223) * 2_128_632_005, 1_649_913 * id - q * 2_128_632_005);
    var back := bucket - 1_013_904_223;
    ModShift(bucket, back * 2_128_632_005 * 1_664_525 + 1_013_904_223, 1_649_913 * back);
  }

  lemma ModShift(a: int, b: int, k: int)
    requires b == a + k * MODULUS
    ensures b % MODULUS == a % MODULUS
  {
  }

  // ---------------------------------------------------------------------------------------------
  // Exactly half.

  lemma {:induction false} BijectionSize<A(!new), B(!new)>(a: set<A>, b: set<B>, f: A -> B)
    requires forall x :: x in a ==> f(x) in b
    requires forall x, y :: x in a && y in a && f(x) == f(y) ==> x == y
    requires forall z :: z in b ==> exists x :: x in a && f(x) == z
    ensures |a| == |b|
  {
    if a == {} {
      assert forall z :: z !in b;
    } else {
      var x :| x in a;
      forall z | z in b - {f(x)} ensures exists y :: y in a - {x} && f(y) == z {
        var y :| y in a && f(y) == z;
        assert y in a - {x};
      }
      BijectionSize(a - {x}, b - {f(x)}, f);
    }
  }

  /** The ids of a window of length MODULUS whose bucket is in the lower half. */
  ghost function Treated(bucket: int -> nat, lo: int): set<int> {
    set x: int | lo <= x < lo + MODULUS && bucket(x) < HALF
  }

  /** A bucket function that is a permutation of the residues sends exactly half of any full window low. */
  lemma HalfOf(bucket: int -> nat, back: nat -> int, lo: int)
    requires forall x, y :: bucket(x) == bucket(y) ==> x % MODULUS == y % MODULUS
    requires forall x, y :: x % MODULUS == y % MODULUS ==> bucket(x) == bucket(y)
    requires forall b: nat :: b < HALF ==> bucket(back(b)) == b
    ensures |Treated(bucket, lo)| == HALF
  {
    var treated, low := Treated(bucket, lo), ToSet(Range(HALF));
    RangeContains(HALF);
    DistinctSize(Range(HALF));
    forall x, y | x in treated && y in treated && bucket(x) == bucket(y) ensures x == y {
      SameInWindow(lo, x, y);
    }
    forall b | b in low ensures exists x :: x in treated && bucket(x) == b {
      var x := InWindow(lo, back(b));
      assert bucket(x) == bucket(back(b));
    }
    BijectionSize(treated, low, bucket);
  }

  lemma SameInWindow(lo: int, x: int, y: int)
    requires lo <= x < lo + MODULUS && lo <= y < lo + MODULUS && x % MODULUS == y % MODULUS
    ensures x == y
  {
  }

  lemma InWindow(lo: int, z: int) returns (x: int)
    ensures lo <= x < lo + MODULUS && x % MODULUS == z % MODULUS
  {
    x := lo + (z - lo) % MODULUS;
    ModShift(x, z, (z - lo) / MODULUS);
  }

  /** Of any 2^31 consecutive creator ids exactly 2^30 are treated, and so are exactly 2^30 user ids. */
  lemma ExactlyHalf(lo: int)
    ensures |set id: int | lo <= id < lo + MODULUS && AssignBinary(id)| == HALF
    ensures |set id: int | lo <= id < lo + MODULUS && AssignUser(id)| == HALF
  {
    hide Mixed, Unmixed, UserBucket;
    forall x, y ensures Mixed(x) == Mixed(y) <==> x % MODULUS == y % MODULUS {
      MixedByResidue(x, y);
    }
    forall b: nat | b < HALF ensures Mixed(Unmixed(b)) == b {
      UnmixThenMix(b);
    }
    HalfOf(Mixed, (b: nat) => Unmixed(b), lo);
    assert (set id: int | lo <= id < lo + MODULUS && AssignBinary(id)) == Treated(Mixed, lo);
    forall x, y ensures UserBucket(x) == UserBucket(y) <==> x % MODULUS == y % MODULUS {
      BucketByResidue(x, y);
    }
    var back := (b: nat) => (b - 1_013_904_223) * 2_128_632_005;
    forall b: nat | b < HALF ensures UserBucket(back(b)) == b {
      UserBucketInverse(0, b);
    }
    HalfOf(UserBucket, back, lo);
    assert (set id: int | lo <= id < lo + MODULUS && AssignUser(id)) == Treated(UserBucket, lo);
  }

  lemma MixedByResidue(x: int, y: int)
    ensures Mixed(x) == Mixed(y) <==> x % MODULUS == y % MODULUS
  {
    MixThenUnmix(x);
    MixThenUnmix(y);
    SaltedValue(x);
    SaltedValue(y);
  }

  lemma BucketByResidue(x: int, y: int)
    ensures UserBucket(x) == UserBucket(y) <==> x % MODULUS == y % MODULUS
  {
    UserBucketInverse(x, 0);
    UserBucketInverse(y, 0);
    if x % MODULUS == y % MODULUS {
      var k := x / MODULUS - y / MODULUS;
      assert x == y + k * MODULUS;
      ModShift(y * 1_664_525 + 1_013_904_223, x * 1_664_525 + 1_013_904_223, k * 1_664_525);
    }
  }
}
