/** Two's-complement bits of unbounded integers: the `& mask` of the ring indices, and the
    smearing of `getNextPowerOfTwo`. */
module Bits {
  import opened Common
  import Arith

  function Pow2(k: nat): (p: nat)
    ensures p > 0
  {
    if k == 0 then 1 else 2 * Pow2(k - 1)
  }

  ghost predicate IsPow2(n: int) { exists k: nat :: n == Pow2(k) }

  /** Bitwise and with a non-negative mask; `/` and `%` round down, as an arithmetic shift does. */
  function And(x: int, mask: nat): (r: nat)
    ensures r <= mask
    decreases mask
  {
    if mask == 0 then 0 else 2 * And(x / 2, mask / 2) + (if mask % 2 == 1 then x % 2 else 0)
  }

  lemma AndStep(x: int, h: nat)
    requires h > 0
    ensures And(x, 2 * h - 1) == 2 * And(x / 2, h - 1) + x % 2
  {
    assert (2 * h - 1) / 2 == h - 1 && (2 * h - 1) % 2 == 1;
  }

  lemma AndDouble(x: int, h: nat, p: nat)
    requires h > 0 && p == 2 * h && And(x / 2, h - 1) == x / 2 % h
    ensures And(x, p - 1) == x % p
  {
    AndStep(x, h);
    Arith.HalveTwice(x, h);
  }

  lemma {:induction false} AndPow2(x: int, k: nat)
    ensures AndIsMod(x, Pow2(k))
    decreases k
  {
    if k == 0 {
      AndOne(x);
    } else {
      AndPow2(x / 2, k - 1);
      AndHalf(x, Pow2(k - 1));
    }
  }

  predicate AndIsMod(x: int, p: int)
    requires p > 0
  {
    And(x, p - 1) == x % p
  }

  lemma AndOne(x: int)
    ensures AndIsMod(x, 1)
  {
  }

  lemma AndHalf(x: int, h: nat)
    requires h > 0 && AndIsMod(x / 2, h)
    ensures AndIsMod(x, 2 * h)
  {
    AndDouble(x, h, 2 * h);
  }

  /** A mask one below a power of two keeps the remainder, for negative numbers too. */
  lemma MaskIsMod(x: int, size: nat)
    requires IsPow2(size)
    ensures And(x, size - 1) == x % size
  {
    var k :| size == Pow2(k);
    AndPow2(x, k);
  }

  /** Bitwise or. */
  function Or(x: nat, y: nat): (r: nat)
    ensures r >= x && r >= y
    decreases x + y
  {
    if x == 0 then y else if y == 0 then x
    else 2 * Or(x / 2, y / 2) + (if x % 2 == 1 || y % 2 == 1 then 1 else 0)
  }

  lemma {:induction false} PowSum(a: nat, b: nat)
    ensures Pow2(a + b) == Pow2(a) * Pow2(b)
    decreases a
  {
    if a > 0 {
      PowSum(a - 1, b);
      assert Pow2(a) * Pow2(b) == 2 * (Pow2(a - 1) * Pow2(b));
    }
  }

  /** Shifting right by one place at a time. */
  function Shr(x: nat, k: nat): (r: nat)
    ensures r <= x
    decreases x + k
  {
    if k == 0 then x else Shr(x / 2, k - 1)
  }

  lemma {:induction false} ShrZero(k: nat)
    ensures Shr(0, k) == 0
    decreases k
  {
    if k > 0 { ShrZero(k - 1); }
  }

  lemma {:induction false} ShrShr(x: nat, a: nat, b: nat)
    ensures Shr(Shr(x, a), b) == Shr(x, a + b)
    decreases a
  {
    if a > 0 { ShrShr(x / 2, a - 1, b); }
  }

  lemma {:induction false} ShrOr(x: nat, y: nat, k: nat)
    ensures Shr(Or(x, y), k) == Or(Shr(x, k), Shr(y, k))
    decreases k
  {
    if k > 0 {
      if x == 0 || y == 0 {
        ShrZero(k);
      } else {
        assert Or(x, y) / 2 == Or(x / 2, y / 2);
        ShrOr(x / 2, y / 2, k - 1);
      }
    }
  }

  /** The number of bits of `x`. */
  function Width(x: nat): nat {
    if x == 0 then 0 else 1 + Width(x / 2)
  }

  lemma {:induction false} WidthBounds(x: nat)
    ensures x < Pow2(Width(x)) && (x > 0 ==> Width(x) > 0 && Pow2(Width(x) - 1) <= x)
  {
    if x > 0 { WidthBounds(x / 2); }
  }

  lemma {:induction false} PowIncreases(a: nat, b: nat)
    ensures a < b ==> Pow2(a) < Pow2(b)
    decreases b
  {
    if a < b { PowIncreases(a, b - 1); }
  }

  lemma WidthIff(x: nat, k: nat)
    ensures x < Pow2(k) <==> Width(x) <= k
  {
    WidthBounds(x);
    PowIncreases(Width(x), k);
    if Width(x) > k { PowIncreases(k, Width(x) - 1); }
  }

  lemma {:induction false} WidthOfShr(x: nat, k: nat)
    ensures Width(Shr(x, k)) == if k < Width(x) then Width(x) - k else 0
    decreases k
  {
    if k > 0 { WidthOfShr(x / 2, k - 1); }
  }

  lemma {:induction false} WidthOfOr(x: nat, y: nat)
    requires Width(y) <= Width(x)
    ensures Width(Or(x, y)) == Width(x)
    decreases x + y
  {
    if x > 0 && y > 0 {
      WidthOfOr(x / 2, y / 2);
      assert Or(x, y) / 2 == Or(x / 2, y / 2);
    }
  }

  lemma {:induction false} ShrOnes(w: nat, k: nat)
    requires k <= w
    ensures Shr(Pow2(w) - 1, k) == Pow2(w - k) - 1
    decreases k
  {
    if k > 0 {
      assert (Pow2(w) - 1) / 2 == Pow2(w - 1) - 1;
      ShrOnes(w - 1, k - 1);
    }
  }

  lemma {:induction false} OrOnes(x: nat, j: nat, k: nat)
    requires Shr(x, k) == Pow2(j) - 1
    ensures Or(x, Pow2(k) - 1) == Pow2(j + k) - 1
    decreases k
  {
    if k > 0 {
      assert (Pow2(k) - 1) / 2 == Pow2(k - 1) - 1 && (Pow2(k) - 1) % 2 == 1;
      OrOnes(x / 2, j, k - 1);
    }
  }

  /** The top `m` bits of `x` are set. */
  predicate TopOnes(x: nat, m: nat)
    requires m <= Width(x)
  {
    Shr(x, Width(x) - m) == Pow2(m) - 1
  }

  lemma ShiftedCopy(x: nat, m: nat, k: nat, low: nat)
    requires k <= m && Shr(x, k + low) == Pow2(m) - 1 && Shr(x, m + low) == Pow2(k) - 1
    ensures Shr(Or(x, Shr(x, m)), low) == Pow2(m + k) - 1
  {
    ShrOr(x, Shr(x, m), low);
    ShrShr(x, m, low);
    ShrShr(x, low, k);
    OrOnes(Shr(x, low), m, k);
  }

  function Round(x: nat, m: nat): nat { Or(x, Shr(x, m)) }

  lemma SmearTop(x: nat, m: nat, w: nat)
    requires w == Width(x) && m < w && Shr(x, w - m) == Pow2(m) - 1
    ensures Shr(Round(x, m), w - Min(m + m, w)) == Pow2(Min(m + m, w)) - 1
  {
    var k := Min(m, w - m);                   // ones the shifted copy brings into the low part
    ShrShr(x, w - m, m - k);
    ShrOnes(m, m - k);
    ShiftedCopy(x, m, k, w - m - k);
  }

  /** One round of `number |= number >> m` doubles the run of ones at the top. */
  lemma Smear(x: nat, m: nat, w: nat)
    requires w == Width(x) && TopOnes(x, Min(m, w))
    ensures Width(Round(x, m)) == w && TopOnes(Round(x, m), Min(m + m, w))
  {
    WidthOfShr(x, m);
    WidthOfOr(x, Shr(x, m));
    if w > m {
      SmearTop(x, m, w);
    } else {
      assert Shr(x, m) == 0;
    }
  }

  lemma TopBitIsSet(x: nat)
    ensures TopOnes(x, Min(1, Width(x)))
  {
    if x > 0 {
      WidthOfShr(x, Width(x) - 1);
    }
  }

  ghost predicate Smeared(x: nat, m: nat, w: nat) { Width(x) == w && TopOnes(x, Min(m, w)) }

  lemma SmearedFurther(x: nat, m: nat, w: nat)
    requires Smeared(x, m, w)
    ensures Smeared(Round(x, m), m + m, w)
  {
    Smear(x, m, w);
  }

  lemma SmearedAll(x: nat, m: nat, w: nat)
    requires Smeared(x, m, w) && w <= m
    ensures x == Pow2(w) - 1
  {
  }

  /** The rounds of `getNextPowerOfTwo` set every bit below the highest. */
  method SetBitsBelow(number: nat) returns (n: nat)
    requires Width(number) <= 64
    ensures n == Pow2(Width(number)) - 1
  {
    ghost var w := Width(number);
    TopBitIsSet(number);
    SmearedFurther(number, 1, w);
    n := Round(number, 1);
    SmearedFurther(n, 2, w);
    n := Round(n, 2);
    SmearedFurther(n, 4, w);
    n := Round(n, 4);
    SmearedFurther(n, 8, w);
    n := Round(n, 8);
    SmearedFurther(n, 16, w);
    n := Round(n, 16);
    SmearedFurther(n, 32, w);
    n := Round(n, 32);
    SmearedAll(n, 64, w);
  }

  /** What the rounds leave, with the last sum taken modulo 2^`bits`. */
  lemma NextPower(number: nat, bits: nat)
    requires 0 < number < Pow2(bits) && bits > 0
    ensures var r := Pow2(Width(number - 1)) % Pow2(bits);
            && Width(number - 1) <= bits
            && (number <= Pow2(bits - 1) ==> IsPow2(r) && number <= r && (r == 1 || r < 2 * number))
            && (number > Pow2(bits - 1) ==> r == 0)
  {
    var n := number - 1;
    var w := Width(n);
    WidthBounds(n);
    WidthIff(n, bits);
    WidthIff(n, bits - 1);
    PowIncreases(w, bits);
    if w < bits {
      Arith.DivModUnique(Pow2(w), Pow2(bits), 0, Pow2(w));
    } else {
      Arith.DivModUnique(Pow2(w), Pow2(bits), 1, 0);
    }
  }

  lemma WordPowers()
    ensures Pow2(63) == TWO_TO_63 && Pow2(64) == TWO_TO_64
  {
    PowSum(4, 4);
    PowSum(8, 8);
    PowSum(16, 16);
    PowSum(32, 31);
    PowSum(16, 15);
    PowSum(8, 7);
    PowSum(4, 3);
  }

  /** The smallest power of two that is at least `number`, in unsigned arithmetic of 64 bits:
      above 2^63 the last sum wraps to 0. */
  method GetNextPowerOfTwo(number: nat) returns (r: nat)
    requires number < TWO_TO_64
    ensures NextIs(number, r)
  {
    if number == 0 {
      NextOfZero();
      return 1;
    }
    WidthFits(number);
    var n := SetBitsBelow(number - 1);
    LastSum(number, n);
    r := (n + 1) % TWO_TO_64;
  }

  lemma WidthFits(number: nat)
    requires 0 < number < TWO_TO_64
    ensures Width(number - 1) <= 64
  {
    WordPowers();
    WidthIff(number - 1, 64);
  }

  lemma NextOfZero()
    ensures NextIs(0, 1)
  {
    assert Pow2(0) == 1;
  }

  lemma LastSum(number: nat, n: nat)
    requires 0 < number < TWO_TO_64 && n == Pow2(Width(number - 1)) - 1
    ensures NextIs(number, (n + 1) % TWO_TO_64)
  {
    WordPowers();
    NextPower(number, 64);
  }

  /** `r` is the smallest power of two from `number` on, if a 64-bit word can hold it. */
  ghost predicate NextIs(number: nat, r: nat) {
    if number <= TWO_TO_63 then IsPow2(r) && number <= r && (r == 1 || r < 2 * number) else r == 0
  }
}
