/** Bitwise operators on naturals, defined bit by bit, and what they compute for
    the masks the allocator uses (powers of two and powers of two minus one). */
module Bits {

  const MAX_INT32: int := 0x7fff_ffff
  const TWO_31: int := 0x8000_0000
  const TWO_32: int := 0x1_0000_0000

  function Pow2(k: nat): (r: nat)
    ensures r >= 1
  {
    if k == 0 then 1 else 2 * Pow2(k - 1)
  }

  ghost predicate IsPow2(n: nat) {
    exists k: nat :: n == Pow2(k)
  }

  /** x & y */
  function And(x: nat, y: nat): (r: nat)
    ensures r <= x && r <= y
  {
    if x == 0 || y == 0 then 0 else (x % 2) * (y % 2) + 2 * And(x / 2, y / 2)
  }

  /** x &^ y */
  function AndNot(x: nat, y: nat): (r: nat)
    ensures r <= x
  {
    if x == 0 then 0 else (if x % 2 == 1 && y % 2 == 0 then 1 else 0) + 2 * AndNot(x / 2, y / 2)
  }

  /** x | y */
  function Or(x: nat, y: nat): nat
    decreases x + y
  {
    if x == 0 then y else if y == 0 then x
    else (if x % 2 == 1 || y % 2 == 1 then 1 else 0) + 2 * Or(x / 2, y / 2)
  }

  /** The int32 value whose two's complement bits are the low 32 bits of x. */
  function ToInt32(x: int): (r: int)
    ensures -TWO_31 <= r <= MAX_INT32
    ensures -TWO_31 <= x <= MAX_INT32 ==> r == x
  {
    var u := x % TWO_32;
    if u < TWO_31 then u else u - TWO_32
  }

  /** bits.Len32: the number of bits needed to write v. */
  function Len(v: nat): nat {
    if v == 0 then 0 else 1 + Len(v / 2)
  }

  /** nextPowerOfTwo, for the values the constructor can pass (at most 2^31). */
  function NextPowerOfTwo(v: nat): nat
    requires v <= TWO_31
  {
    if v == 0 then 1 else Pow2(Len(v - 1))
  }

  /** r is the least power of two that is not smaller than v. */
  ghost predicate IsLeastPow2(r: nat, v: nat) {
    IsPow2(r) && v <= r && forall k: nat :: v <= Pow2(k) ==> r <= Pow2(k)
  }

  lemma {:induction false} LenBounds(v: nat)
    ensures v < Pow2(Len(v))
    ensures v > 0 ==> Pow2(Len(v)) <= 2 * v
  {
    if v > 0 {
      LenBounds(v / 2);
    }
  }

  /** The result is the least power of two that is at least v. */
  lemma NextPowerOfTwoIsLeast(v: nat)
    requires v <= TWO_31
    ensures IsLeastPow2(NextPowerOfTwo(v), v)
  {
    if v == 0 {
      assert Pow2(0) == 1;
    } else {
      LenBounds(v - 1);
      forall k: nat | v <= Pow2(k) ensures NextPowerOfTwo(v) <= Pow2(k) {
        if k < Len(v - 1) {
          Pow2Monotone(k, Len(v - 1) - 1);
        } else {
          Pow2Monotone(Len(v - 1), k);
        }
      }
    }
  }

  lemma {:induction false} Pow2Monotone(j: nat, k: nat)
    requires j <= k
    ensures Pow2(j) <= Pow2(k)
  {
    if j < k {
      Pow2Monotone(j, k - 1);
    }
  }

  lemma {:induction false} Pow2Adds(j: nat, k: nat)
    ensures Pow2(j + k) == Pow2(j) * Pow2(k)
  {
    if j > 0 {
      Pow2Adds(j - 1, k);
    }
  }

  lemma Pow2Values()
    ensures Pow2(4) == 16 && Pow2(16) == 0x1_0000 && Pow2(30) == 0x4000_0000
    ensures Pow2(31) == TWO_31 && Pow2(32) == TWO_32
  {
    assert Pow2(8) == 256;
    Pow2Adds(8, 8);
    Pow2Adds(14, 16);
    assert Pow2(14) == 0x4000;
  }

  /** Splitting off the low bit of a remainder. */
  lemma HalfMod(x: nat, m: nat)
    requires m > 0
    ensures x % (2 * m) == x % 2 + 2 * ((x / 2) % m)
  {
    var q, r := (x / 2) / m, (x / 2) % m;
    assert x == 2 * (q * m + r) + x % 2;
    assert x == (2 * m) * q + (2 * r + x % 2) by {
      assert 2 * (q * m) == (2 * m) * q;
    }
    ModIsUnique(x, 2 * m, q, 2 * r + x % 2);
  }

  lemma ModIsUnique(x: int, m: nat, q: int, r: nat)
    requires m > 0 && r < m && x == m * q + r
    ensures x % m == r && x / m == q
  {
    var d := x / m - q;
    assert m * d == r - x % m by {
      assert m * d == m * (x / m) - m * q;
    }
    MulGrows(m, d);
  }

  lemma MulGrows(m: int, d: int)
    requires m > 0
    ensures d >= 1 ==> m * d >= m
    ensures d <= -1 ==> m * d <= -m
  {
  }

  /** Two numbers have the same remainder exactly when their difference has none. */
  lemma SameRemainder(a: int, b: int, m: nat)
    requires m > 0
    ensures a % m == b % m <==> (b - a) % m == 0
  {
    var qa, ra, qb, rb := a / m, a % m, b / m, b % m;
    assert a == m * qa + ra && b == m * qb + rb;
    assert m * (qb - qa) == m * qb - m * qa;
    if ra <= rb {
      ModIsUnique(b - a, m, qb - qa, rb - ra);
    } else {
      assert m * (qb - qa - 1) == m * (qb - qa) - m;
      ModIsUnique(b - a, m, qb - qa - 1, rb - ra + m);
    }
  }

  /** Adding a multiple of m does not change the remainder. */
  lemma ModShift(x: int, m: nat, q: int)
    requires m > 0
    ensures (x + m * q) % m == x % m
  {
    ModIsUnique(m * q, m, q, 0);
    SameRemainder(x, x + m * q, m);
  }

  /** Reducing a summand first does not change the remainder. */
  lemma ModAdd(x: int, y: int, m: nat)
    requires m > 0
    ensures (x % m + y) % m == (x + y) % m
  {
    var q := x / m;
    assert x == m * q + x % m;
    ModShift(x % m + y, m, q);
  }

  lemma ModDouble(d: int, m: nat)
    requires m > 0
    ensures (2 * d) % (2 * m) == 2 * (d % m)
  {
    var q := d / m;
    assert d == m * q + d % m;
    assert (2 * m) * q == 2 * (m * q);
    ModIsUnique(2 * d, 2 * m, q, 2 * (d % m));
  }

  /** A remainder by a multiple of m keeps the remainder by m. */
  lemma ModOfMod(x: int, k: nat, m: nat)
    requires m > 0 && k > 0 && k * m > 0
    ensures x % (k * m) % m == x % m
  {
    var q, r := x / (k * m), x % (k * m);
    assert x == (k * m) * q + r;
    assert (k * m) * q == m * (k * q);
    ModShift(r, m, k * q);
  }

  /** m is the least multiple of c that is not smaller than size. */
  ghost predicate IsLeastMultiple(m: int, c: nat, size: int)
    requires c > 0
  {
    m % c == 0 && size <= m && forall n :: n % c == 0 && size <= n ==> m <= n
  }

  lemma RoundDown(x: nat, c: nat, size: int)
    requires c > 0 && x == size + c - 1
    ensures IsLeastMultiple(x - x % c, c, size)
    ensures x - x % c < size + c
  {
    var q := x / c;
    assert x - x % c == c * q;
    ModIsUnique(c * q, c, q, 0);
    forall n | n % c == 0 && size <= n ensures x - x % c <= n {
      assert n == c * (n / c);
      MulGrows(c, q - n / c);
      assert c * (q - n / c) == c * q - c * (n / c);
    }
  }

  /** Masking with 2^k - 1 keeps the remainder by 2^k. */
  lemma {:induction false} AndMask(x: nat, k: nat)
    ensures And(x, Pow2(k) - 1) == x % Pow2(k)
  {
    if x == 0 {
      ModIsUnique(0, Pow2(k), 0, 0);
    } else if k == 0 {
      ModIsUnique(x, 1, x, 0);
    } else {
      AndMask(x / 2, k - 1);
      var m := Pow2(k - 1);
      assert Pow2(k) == 2 * m;
      hide And, Pow2;
      AndDouble(x, m);
    }
  }

  lemma AndDouble(x: nat, m: nat)
    requires x > 0 && m > 0 && And(x / 2, m - 1) == (x / 2) % m
    ensures And(x, 2 * m - 1) == x % (2 * m)
  {
    AndOdd(x, m);
    HalfMod(x, m);
    hide And;
  }

  lemma AndOdd(x: nat, m: nat)
    requires x > 0 && m > 0
    ensures And(x, 2 * m - 1) == x % 2 + 2 * And(x / 2, m - 1)
  {
    var y := 2 * m - 1;
    assert y / 2 == m - 1 && y % 2 == 1;
  }

  /** Clearing with 2^k - 1 rounds down to a multiple of 2^k. */
  lemma {:induction false} AndNotMask(x: nat, k: nat)
    ensures AndNot(x, Pow2(k) - 1) == x - x % Pow2(k)
  {
    if x == 0 {
      ModIsUnique(0, Pow2(k), 0, 0);
    } else if k == 0 {
      AndNotZero(x);
      ModIsUnique(x, 1, x, 0);
    } else {
      AndNotMask(x / 2, k - 1);
      var m := Pow2(k - 1);
      assert Pow2(k) == 2 * m;
      hide AndNot, Pow2;
      AndNotDouble(x, m);
    }
  }

  lemma AndNotDouble(x: nat, m: nat)
    requires x > 0 && m > 0 && AndNot(x / 2, m - 1) == x / 2 - (x / 2) % m
    ensures AndNot(x, 2 * m - 1) == x - x % (2 * m)
  {
    AndNotOdd(x, m);
    HalfMod(x, m);
    hide AndNot;
  }

  lemma AndNotOdd(x: nat, m: nat)
    requires x > 0 && m > 0
    ensures AndNot(x, 2 * m - 1) == 2 * AndNot(x / 2, m - 1)
  {
    var y := 2 * m - 1;
    assert y / 2 == m - 1 && y % 2 == 1;
  }

  lemma {:induction false} AndNotZero(x: nat)
    ensures AndNot(x, 0) == x
  {
    if x > 0 {
      AndNotZero(x / 2);
    }
  }

  /** Masking with the single bit 2^k isolates bit k. */
  lemma {:induction false} AndBit(x: nat, k: nat)
    ensures And(x, Pow2(k)) == if (x / Pow2(k)) % 2 == 1 then Pow2(k) else 0
  {
    if x == 0 {
    } else if k == 0 {
      assert And(x / 2, 0) == 0;
    } else {
      AndBit(x / 2, k - 1);
      DivHalf(x, Pow2(k - 1));
    }
  }

  lemma DivHalf(x: nat, m: nat)
    requires m > 0
    ensures x / (2 * m) == (x / 2) / m
  {
    var q, r := (x / 2) / m, (x / 2) % m;
    assert x == (2 * m) * q + (2 * r + x % 2) by {
      assert 2 * (q * m) == (2 * m) * q;
    }
    ModIsUnique(x, 2 * m, q, 2 * r + x % 2);
  }

  /** Or of a value shifted by k bits with a k-bit value is their sum. */
  lemma {:induction false} OrDisjoint(hi: nat, lo: nat, k: nat)
    requires lo < Pow2(k)
    ensures Or(hi * Pow2(k), lo) == hi * Pow2(k) + lo
  {
    if hi == 0 || lo == 0 {
      OrWithZero(hi * Pow2(k));
      OrWithZero(lo);
    } else {
      OrDisjoint(hi, lo / 2, k - 1);
      var m := Pow2(k - 1);
      assert Pow2(k) == 2 * m;
      hide Pow2, Or;
      OrShifted(hi, lo, m);
    }
  }

  lemma OrWithZero(x: nat)
    ensures Or(x, 0) == x && Or(0, x) == x
  {
  }

  lemma OrShifted(hi: nat, lo: nat, m: nat)
    requires hi > 0 && lo > 0 && m > 0 && Or(hi * m, lo / 2) == hi * m + lo / 2
    ensures Or(hi * (2 * m), lo) == hi * (2 * m) + lo
  {
    hide Or;
    var a := hi * m;
    MulGrows(m, hi);
    assert hi * (2 * m) == 2 * a;
    OrDouble(a, lo);
  }

  lemma OrDouble(a: nat, lo: nat)
    requires a > 0 && lo > 0
    ensures Or(2 * a, lo) == lo % 2 + 2 * Or(a, lo / 2)
  {
    var x := 2 * a;
    assert x / 2 == a && x % 2 == 0;
  }
}
