/** Bitwise operators on unsigned words, and the bit tricks that the heap's binmaps and
    the page map play with them. A word is a number; & and | work bit by bit. */
module Bits {
  import opened Words

  /** (m >> i) & 1 */
  predicate Has(m: nat, i: nat) {
    if i == 0 then m % 2 == 1 else Has(m / 2, i - 1)
  }

  /** a & b */
  function And(a: nat, b: nat): (r: nat)
    ensures r <= a && r <= b
  {
    if a == 0 || b == 0 then 0
    else 2 * And(a / 2, b / 2) + (if a % 2 == 1 && b % 2 == 1 then 1 else 0)
  }

  /** a | b */
  function Or(a: nat, b: nat): nat
    decreases a + b
  {
    if a == 0 then b else if b == 0 then a
    else 2 * Or(a / 2, b / 2) + (if a % 2 == 1 || b % 2 == 1 then 1 else 0)
  }

  /** ~a, on 32 bits */
  function Not(a: word): word {
    WORD - 1 - a
  }

  lemma {:induction false} HasNone(i: nat)
    ensures !Has(0, i)
  {
    if i > 0 { HasNone(i - 1); }
  }

  lemma {:induction false} HasAnd(a: nat, b: nat, i: nat)
    ensures Has(And(a, b), i) <==> Has(a, i) && Has(b, i)
  {
    if a == 0 || b == 0 {
      HasNone(i);
    } else if i > 0 {
      HasAnd(a / 2, b / 2, i - 1);
    }
  }

  lemma {:induction false} HasOr(a: nat, b: nat, i: nat)
    ensures Has(Or(a, b), i) <==> Has(a, i) || Has(b, i)
  {
    if a == 0 || b == 0 {
      HasNone(i);
    } else if i > 0 {
      HasOr(a / 2, b / 2, i - 1);
    }
  }

  lemma {:induction false} HasComplement(a: nat, n: nat, i: nat)
    requires a < Pow2(n) && i < n
    ensures Has(Pow2(n) - 1 - a, i) <==> !Has(a, i)
  {
    if i > 0 {
      assert (Pow2(n) - 1 - a) / 2 == Pow2(n - 1) - 1 - a / 2;
      HasComplement(a / 2, n - 1, i - 1);
    }
  }

  lemma {:induction false} HasPow2(i: nat, j: nat)
    ensures Has(Pow2(i), j) <==> i == j
  {
    if i == 0 {
      if j > 0 { HasNone(j - 1); }
    } else if j > 0 {
      HasPow2(i - 1, j - 1);
    }
  }

  /** A word below 2^n has no bit at n or above. */
  lemma {:induction false} HasBound(m: nat, n: nat, i: nat)
    requires m < Pow2(n) && Has(m, i)
    ensures i < n
  {
    if n == 0 {
      HasNone(i);
    } else if i > 0 {
      HasBound(m / 2, n - 1, i - 1);
    }
  }

  lemma {:induction false} OrBound(a: nat, b: nat, n: nat)
    requires a < Pow2(n) && b < Pow2(n)
    ensures Or(a, b) < Pow2(n)
  {
    if a != 0 && b != 0 {
      OrBound(a / 2, b / 2, n - 1);
    }
  }

  /** idx2bit(i): 1 << i */
  function Bit(i: nat): word
    requires i < 32
  {
    Pow2At32();
    Pow2Monotone(i, 31);
    Pow2(i)
  }

  /** m |= 1 << i */
  function With(m: word, i: nat): (r: word)
    requires i < 32
    ensures forall j: nat :: Has(r, j) <==> j == i || Has(m, j)
  {
    Pow2At32();
    OrBound(m, Bit(i), 32);
    forall j: nat ensures Has(Or(m, Bit(i)), j) <==> j == i || Has(m, j) {
      HasOr(m, Bit(i), j);
      HasPow2(i, j);
    }
    Or(m, Bit(i))
  }

  /** m &= ~(1 << i) */
  function Without(m: word, i: nat): (r: word)
    requires i < 32
    ensures forall j: nat :: Has(r, j) <==> j != i && Has(m, j)
  {
    forall j: nat ensures Has(And(m, Not(Bit(i))), j) <==> j != i && Has(m, j) {
      Pow2At32();
      HasAnd(m, Not(Bit(i)), j);
      if j < 32 {
        HasComplement(Bit(i), 32, j);
        HasPow2(i, j);
      } else if Has(m, j) {
        HasBound(m, 32, j);
      }
    }
    And(m, Not(Bit(i)))
  }

  /** compute_bit2idx: the number of trailing zeros. */
  function Ctz(x: nat): (i: nat)
    requires x != 0
    ensures Has(x, i) && forall j: nat :: j < i ==> !Has(x, j)
  {
    if x % 2 == 1 then 0 else 1 + Ctz(x / 2)
  }

  /** least_bit(x): x & -x */
  function LeastBit(x: word): word {
    And(x, Sub(0, x))
  }

  /** left_bits(x): (x << 1) | -(x << 1) */
  function LeftBits(x: word): word {
    Pow2At32();
    OrBound(Shl1(x), Sub(0, Shl1(x)), 32);
    Or(Shl1(x), Sub(0, Shl1(x)))
  }

  lemma {:induction false} LeastBitWidth(x: nat, n: nat, y: nat)
    requires 0 < x < Pow2(n) && y == Pow2(n) - x
    ensures And(x, y) == Pow2(Ctz(x))
  {
    if x % 2 == 1 {
      HasAndOdd(x, n);
    } else {
      assert y / 2 == Pow2(n - 1) - x / 2 && y % 2 == 0;
      LeastBitWidth(x / 2, n - 1, y / 2);
    }
  }

  lemma HasAndOdd(x: nat, n: nat)
    requires 0 < x < Pow2(n) && x % 2 == 1
    ensures And(x, Pow2(n) - x) == 1
  {
    var y := Pow2(n) - x;
    assert y % 2 == 1 && y / 2 == Pow2(n - 1) - 1 - x / 2;
    AndComplement(x / 2, n - 1);
  }

  lemma {:induction false} AndComplement(a: nat, n: nat)
    requires a < Pow2(n)
    ensures And(a, Pow2(n) - 1 - a) == 0
  {
    if a != 0 {
      assert (Pow2(n) - 1 - a) / 2 == Pow2(n - 1) - 1 - a / 2;
      AndComplement(a / 2, n - 1);
    }
  }

  /** x | -x, on n bits: the lowest set bit and everything above it. */
  lemma {:induction false} SameOrLeftWidth(k: nat, n: nat, j: nat)
    requires k < n && j < n && Pow2(k) <= Pow2(n)
    ensures Has(Or(Pow2(k), Pow2(n) - Pow2(k)), j) <==> k <= j
  {
    HasOr(Pow2(k), Pow2(n) - Pow2(k), j);
    HasPow2(k, j);
    if k == 0 {
      HasComplement(1, n, j);
      if j > 0 {
        HasComplement(0, n - 1, j - 1);
        HasNone(j - 1);
        assert (Pow2(n) - 1) / 2 == Pow2(n - 1) - 1;
      }
    } else if j > 0 {
      SameOrLeftWidth(k - 1, n - 1, j - 1);
      Pow2Monotone(k, n - 1);
      HasOr(Pow2(k - 1), Pow2(n - 1) - Pow2(k - 1), j - 1);
      HasPow2(k - 1, j - 1);
      assert (Pow2(n) - Pow2(k)) / 2 == Pow2(n - 1) - Pow2(k - 1);
    }
  }

  /** left_bits(1 << i) has exactly the bits above i. */
  lemma LeftBitsAbove(i: nat, j: nat)
    requires i < 32 && j < 32
    ensures Has(LeftBits(Bit(i)), j) <==> i < j
  {
    Pow2At32();
    var y := Shl1(Bit(i));
    if i == 31 {
      assert y == 0;
      HasNone(j);
    } else {
      Pow2Monotone(i + 1, 31);
      assert y == Pow2(i + 1);
      assert Sub(0, y) == WORD - y;
      SameOrLeftWidth(i + 1, 32, j);
    }
  }

  /** The lowest set bit: compute_bit2idx(least_bit(map)). */
  lemma LowestSetBit(bits: word)
    requires bits != 0
    ensures LeastBit(bits) != 0
    ensures var i := Ctz(LeastBit(bits));
            i < 32 && Has(bits, i) && forall j: nat :: j < i ==> !Has(bits, j)
  {
    LeastBitValue(bits, Ctz(bits));
    CtzOfPow2(Ctz(bits));
  }

  lemma LeastBitValue(bits: word, i: nat)
    requires bits != 0 && i == Ctz(bits)
    ensures i < 32 && LeastBit(bits) == Pow2(i)
  {
    WordBit(bits, i);
    LeastBitWidth(bits, 32, Sub(0, bits));
  }

  lemma WordBit(m: word, i: nat)
    requires Has(m, i)
    ensures i < 32 && Pow2(32) == WORD
  {
    Pow2At32();
    HasBound(m, 32, i);
  }

  lemma CtzOfPow2(i: nat)
    ensures Ctz(Pow2(i)) == i
  {
    HasPow2(i, Ctz(Pow2(i)));
  }

  /** The next set bit above idx, found the way the heap finds its next nonempty bin:
      compute_bit2idx(least_bit(left_bits(idx2bit(idx)) & map)). */
  lemma NextSetBit(bits: word, idx: nat)
    requires idx < 32
    ensures var left := And(LeftBits(Bit(idx)), bits);
            if left == 0 then forall j: nat :: idx < j < 32 ==> !Has(bits, j)
            else LeastBit(left) != 0 &&
                 var i := Ctz(LeastBit(left));
                 idx < i < 32 && Has(bits, i) && forall j: nat :: idx < j < i ==> !Has(bits, j)
  {
    var left := And(LeftBits(Bit(idx)), bits);
    forall j: nat | j < 32 ensures Has(left, j) <==> idx < j && Has(bits, j) {
      LeftBitsAbove(idx, j);
      HasAnd(LeftBits(Bit(idx)), bits, j);
    }
    if left == 0 {
      forall j: nat | idx < j < 32 ensures !Has(bits, j) { HasNone(j); }
    } else {
      LowestSetBit(left);
    }
  }

  /** m >> n, shifting one bit at a time. */
  function Shr(m: word, n: nat): (r: word)
    ensures r <= m
  {
    if n == 0 then m else Shr(m / 2, n - 1)
  }

  lemma {:induction false} HasShr(m: word, n: nat, j: nat)
    ensures Has(Shr(m, n), j) <==> Has(m, n + j)
  {
    if n > 0 { HasShr(m / 2, n - 1, j); }
  }

  lemma {:induction false} HasMod(m: nat, n: nat, j: nat)
    requires j < n
    ensures Has(m % Pow2(n), j) <==> Has(m, j)
  {
    ModHalf(m, Pow2(n - 1), Pow2(n));
    if j > 0 { HasMod(m / 2, n - 1, j - 1); }
  }

  lemma ModHalf(m: nat, p: nat, d: nat)
    requires p > 0 && d == 2 * p
    ensures (m % d) % 2 == m % 2 && (m % d) / 2 == (m / 2) % p
  {
    var q: int, r: int := m / d, m % d;
    Quotient(m, d, q, r);
    TwiceProduct(q, p, d);
    HalfOfSum(m, p, q, q * p, r);
  }

  lemma Quotient(m: nat, d: nat, q: int, r: int)
    requires d > 0 && q == m / d && r == m % d
    ensures m == q * d + r && 0 <= r < d && 0 <= q
  {
    assert m == q * d + r;
    if q < 0 { NegativeProduct(q, d); }
  }

  lemma {:induction false} NegativeProduct(k: int, d: nat)
    requires k < 0
    ensures k * d <= 0 - d
    decreases -k
  {
    if k < -1 { NegativeProduct(k + 1, d); }
  }

  lemma {:induction false} TwiceProduct(q: nat, p: nat, d: nat)
    requires d == 2 * p
    ensures q * d == 2 * (q * p)
  {
    if q > 0 { TwiceProduct(q - 1, p, d); }
  }

  lemma HalfOfSum(m: nat, p: nat, q: nat, k: nat, r: nat)
    requires k == q * p && m == 2 * k + r && r < 2 * p
    ensures m % 2 == r % 2 && r / 2 == (m / 2) % p
  {
    assert m / 2 == k + r / 2;
    MulDiv(q, r / 2, p);
  }

  lemma {:induction false} HasShl(m: word, n: nat, j: nat)
    requires j < 32
    ensures Has(Shl(m, n), j) <==> n <= j && Has(m, j - n)
  {
    if n > 0 {
      var k: nat := Shl(m, n - 1);
      Pow2At32();
      HasMod(2 * k, 32, j);
      if j > 0 { HasShl(m, n - 1, j - 1); }
    }
  }

  /** smallbits = smallmap >> idx; bits 0 and 1 of it are bins idx and idx + 1. */
  lemma TwoSmallBits(bits: word, idx: nat)
    ensures And(Shr(bits, idx), 3) != 0 <==> Has(bits, idx) || Has(bits, idx + 1)
    ensures And(Not(Shr(bits, idx)), 1) == if Has(bits, idx) then 0 else 1
  {
    var s := Shr(bits, idx);
    HasShr(bits, idx, 0);
    HasShr(bits, idx, 1);
    assert And(s, 3) == 2 * And(s / 2, 1) + s % 2 || s == 0;
    LowBitOf(s / 2);
    LowBitOf(Not(s));
  }

  lemma LowBitOf(x: nat)
    ensures And(x, 1) == x % 2
  {
  }

  /** The next nonempty small bin: (smallbits << idx) & left_bits(idx2bit(idx)). */
  lemma NextSmallBit(bits: word, idx: nat)
    requires idx < 32 && Shr(bits, idx) != 0 && !Has(bits, idx)
    ensures var left := And(Shl(Shr(bits, idx), idx), LeftBits(Bit(idx)));
            left != 0 && LeastBit(left) != 0 &&
            var i := Ctz(LeastBit(left));
            idx < i < 32 && Has(bits, i) && forall j: nat :: idx < j < i ==> !Has(bits, j)
  {
    var s := Shr(bits, idx);
    var left := And(Shl(s, idx), LeftBits(Bit(idx)));
    forall j: nat | j < 32 ensures Has(left, j) <==> idx < j && Has(bits, j) {
      HasAnd(Shl(s, idx), LeftBits(Bit(idx)), j);
      LeftBitsAbove(idx, j);
      HasShl(s, idx, j);
      if idx <= j { HasShr(bits, idx, j - idx); }
    }
    var k := Ctz(s);
    HasShr(bits, idx, k);
    Pow2At32();
    HasBound(bits, 32, idx + k);
    assert Has(left, idx + k);
    HasNone(idx + k);
    LowestSetBit(left);
  }

  lemma NoSmallBit(bits: word, idx: nat)
    requires Shr(bits, idx) == 0
    ensures forall j: nat :: idx <= j ==> !Has(bits, j)
  {
    forall j: nat | idx <= j ensures !Has(bits, j) {
      HasShr(bits, idx, j - idx);
      HasNone(j - idx);
    }
  }
}
