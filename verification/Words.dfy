/** Unsigned 32-bit words: wrapping arithmetic, shifting one bit at a time, and the
    order that the leading bits of two words impose on them. */
module Words {

  const WORD := 0x1_0000_0000
  const SIGN := 0x8000_0000

  type word = x: int | 0 <= x < WORD

  /** a - b on unsigned 32-bit words. */
  function Sub(a: word, b: word): word {
    (a - b) % WORD
  }

  /** k << 1 */
  function Shl1(k: word): word {
    (2 * k) % WORD
  }

  /** (k >> 31) & 1 */
  function TopBit(k: word): nat {
    k / SIGN
  }

  /** k << n, shifting one bit at a time. */
  function Shl(k: word, n: nat): word {
    if n == 0 then k else Shl1(Shl(k, n - 1))
  }

  /** Bit number n of k, counting from the most significant bit. */
  function BitAt(k: word, n: nat): nat {
    TopBit(Shl(k, n))
  }

  /** The n most significant bits of k, as a number. */
  function Prefix(k: word, n: nat): nat {
    if n == 0 then 0 else 2 * Prefix(k, n - 1) + BitAt(k, n - 1)
  }

  /** k << 1 drops the top bit and doubles the rest. */
  lemma Shl1Value(k: word)
    ensures Shl1(k) == 2 * k - TopBit(k) * WORD
  {
  }

  lemma BitRange(k: word, n: nat)
    ensures BitAt(k, n) == 0 || BitAt(k, n) == 1
  {
  }

  /** Words with equal leading bits agree on every shorter run of leading bits too. */
  lemma {:induction false} PrefixShorter(a: word, b: word, m: nat, n: nat)
    requires m <= n && Prefix(a, n) == Prefix(b, n)
    ensures Prefix(a, m) == Prefix(b, m)
    ensures forall k: nat :: m <= k < n ==> BitAt(a, k) == BitAt(b, k)
    decreases n
  {
    if m < n {
      BitRange(a, n - 1);
      BitRange(b, n - 1);
      PrefixShorter(a, b, m, n - 1);
    }
  }

  /** Equal leading bits: the remaining bits decide the order. */
  lemma {:induction false} PrefixOrder(a: word, b: word, n: nat)
    requires Prefix(a, n) == Prefix(b, n)
    ensures a < b <==> Shl(a, n) < Shl(b, n)
  {
    if n > 0 {
      PrefixShorter(a, b, n - 1, n);
      PrefixOrder(a, b, n - 1);
      Shl1Value(Shl(a, n - 1));
      Shl1Value(Shl(b, n - 1));
    }
  }

  /** After equal leading bits a 0 sorts below a 1. */
  lemma FirstDifference(a: word, b: word, n: nat)
    requires Prefix(a, n) == Prefix(b, n) && BitAt(a, n) == 0 && BitAt(b, n) == 1
    ensures a < b
  {
    PrefixOrder(a, b, n);
  }

  function Pow2(n: nat): nat
    ensures Pow2(n) > 0
  {
    if n == 0 then 1 else 2 * Pow2(n - 1)
  }

  lemma {:induction false} Pow2Sum(m: nat, n: nat)
    ensures Pow2(m + n) == Pow2(m) * Pow2(n)
  {
    if m > 0 {
      Pow2Sum(m - 1, n);
    }
  }

  lemma {:induction false} Pow2Monotone(m: nat, n: nat)
    requires m <= n
    ensures Pow2(m) <= Pow2(n)
  {
    if m < n {
      Pow2Monotone(m, n - 1);
    }
  }

  lemma Pow2At32()
    ensures Pow2(32) == WORD && Pow2(31) == SIGN
  {
    assert Pow2(8) == 256;
    assert Pow2(16) == 65536 by { assert Pow2(12) == 4096; }
    Pow2Sum(16, 16);
    assert Pow2(32) == 2 * Pow2(31);
  }

  lemma {:induction false} MulMonotone(a: nat, b: nat, d: nat)
    requires a < b
    ensures a * d + d <= b * d
    decreases b
  {
    assert b * d == (b - 1) * d + d;
    if a + 1 < b {
      MulMonotone(a, b - 1, d);
    }
  }

  lemma MulDiv(q: nat, r: nat, d: nat)
    requires r < d
    ensures (q * d + r) / d == q && (q * d + r) % d == r
  {
    var k := (q * d + r) / d;
    if k < q {
      MulMonotone(k, q, d);
      assert false;
    } else if k > q {
      MulMonotone(q, k, d);
      assert false;
    }
  }

  /** Leading and shifted bits written with powers of two. */
  lemma {:induction false} PrefixByDivision(k: word, n: nat)
    requires n <= 32
    ensures Prefix(k, n) == k / Pow2(32 - n)
    ensures Shl(k, n) == (k % Pow2(32 - n)) * Pow2(n)
  {
    Pow2At32();
    if n > 0 {
      PrefixByDivision(k, n - 1);
      HalveStep(k, Pow2(32 - n), Pow2(n - 1), Prefix(k, n - 1), Shl(k, n - 1)) by {
        assert Pow2(33 - n) == 2 * Pow2(32 - n);
        Pow2Sum(32 - n, n - 1);
      }
      assert Pow2(n) == 2 * Pow2(n - 1);
    }
  }

  lemma HalveStep(k: word, half: nat, scale: nat, prefix: nat, shifted: word)
    requires half > 0 && scale > 0 && half * scale == SIGN
    requires prefix == k / (2 * half) && shifted == (k % (2 * half)) * scale
    ensures 2 * prefix + TopBit(shifted) == k / half
    ensures Shl1(shifted) == (k % half) * (2 * scale)
  {
    var r := k % (2 * half);
    var top := if r >= half then 1 else 0;
    var low := r - top * half;
    SplitHalf(k, half, prefix, r);
    MulMonotone(low, half, scale);
    assert r * scale == top * SIGN + low * scale by {
      if top == 1 {
        assert (half + low) * scale == half * scale + low * scale;
      }
    }
    assert 0 <= low * scale < SIGN;
    Shl1Value(shifted);
    assert (k % half) * (2 * scale) == 2 * (low * scale);
  }

  lemma SplitHalf(k: nat, half: nat, prefix: nat, r: nat)
    requires half > 0 && prefix == k / (2 * half) && r == k % (2 * half)
    ensures r < 2 * half
    ensures r < half ==> k / half == 2 * prefix && k % half == r
    ensures r >= half ==> k / half == 2 * prefix + 1 && k % half == r - half
  {
    assert k == (2 * half) * prefix + r;
    if r < half {
      MulDiv(2 * prefix, r, half);
    } else {
      MulDiv(2 * prefix + 1, r - half, half);
      assert (2 * prefix + 1) * half + (r - half) == k;
    }
  }

  /** All 32 bits equal: the same word. */
  lemma SameWord(a: word, b: word)
    requires Prefix(a, 32) == Prefix(b, 32)
    ensures a == b
  {
    PrefixByDivision(a, 32);
    PrefixByDivision(b, 32);
  }

  lemma {:induction false} IntervalSize(s: set<int>, a: int, b: int)
    requires a <= b && forall k :: k in s <==> a <= k < b
    ensures |s| == b - a
    decreases b - a
  {
    if a == b {
      assert forall k: int :: k !in s;
      assert s !! s;
      assert s == s - s;
    } else {
      IntervalSize(s - {b - 1}, a, b - 1);
      assert s == (s - {b - 1}) + {b - 1};
    }
  }
}
