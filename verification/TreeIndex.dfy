/** The size classes of the tree bins (compute_tree_index and its companions), for 32-bit
    words with TREEBIN_SHIFT 8 and 32 bins. */
module TreeIndex {
  import opened Words

  const NTREEBINS: nat := 32
  const MIN_LARGE_SIZE: nat := 256

  /** Index of the most significant set bit, 31 - clz(x). */
  function Log2(x: nat): nat
    requires x > 0
  {
    if x == 1 then 0 else 1 + Log2(x / 2)
  }

  lemma {:induction false} Log2Bounds(x: nat)
    requires x > 0
    ensures Pow2(Log2(x)) <= x < Pow2(Log2(x) + 1)
  {
    if x > 1 { Log2Bounds(x / 2); }
  }

  /** compute_tree_index(s) */
  function Index(s: word): nat {
    var x := s / 256;
    if x == 0 then 0
    else if x > 0xFFFF then NTREEBINS - 1
    else
      var k := Log2(x);
      2 * k + (s / Pow2(k + 7)) % 2
  }

  /** leftshift_for_tree_index(i) */
  function LeftShift(i: nat): nat
    requires i < NTREEBINS
  {
    if i == NTREEBINS - 1 then 0 else 31 - (i / 2 + 6)
  }

  /** minsize_for_tree_index(i) */
  function MinSize(i: nat): nat {
    Pow2(i / 2 + 8) + (i % 2) * Pow2(i / 2 + 7)
  }

  lemma {:induction false} MinSizeMonotone(i: nat, j: nat)
    requires i <= j
    ensures MinSize(i) <= MinSize(j)
    decreases j - i
  {
    if i < j {
      assert MinSize(i) <= MinSize(i + 1);
      MinSizeMonotone(i + 1, j);
    }
  }

  /** Writing s as the leading 1, the next bit and a rest. */
  lemma LeadingBits(s: word, k: nat)
    requires s >= 256 && k == Log2(s / 256)
    ensures var p := Pow2(k + 7); 2 * p <= s < 4 * p
    ensures var p := Pow2(k + 7);
            (s < 3 * p ==> s / p == 2) && (s >= 3 * p ==> s / p == 3)
  {
    var x := s / 256;
    var p := Pow2(k + 7);
    Log2Bounds(x);
    Pow2Sum(k, 7);
    assert Pow2(7) == 128;
    assert p == Pow2(k) * 128;
    assert Pow2(k + 1) == 2 * Pow2(k);
    if s < 3 * p {
      MulDiv(2, s - 2 * p, p);
    } else {
      MulDiv(3, s - 3 * p, p);
    }
  }

  /** Each large size lies in the range of its own bin, and in no other. */
  lemma IndexRange(s: word)
    requires s >= MIN_LARGE_SIZE
    ensures Index(s) < NTREEBINS && MinSize(Index(s)) <= s
    ensures Index(s) < NTREEBINS - 1 ==> s < MinSize(Index(s) + 1)
  {
    if s / 256 > 0xFFFF {
      LastBinMinSize();
    } else {
      var k := Log2(s / 256);
      var p := Pow2(k + 7);
      MiddleIndex(s, k, p);
      if s < 3 * p { EvenBin(s, k, p); } else { OddBin(s, k, p); }
    }
  }

  lemma MiddleIndex(s: word, k: nat, p: nat)
    requires MIN_LARGE_SIZE <= s <= 0xFF_FFFF && k == Log2(s / 256) && p == Pow2(k + 7)
    ensures k < 16 && 2 * p <= s < 4 * p && Index(s) == if s < 3 * p then 2 * k else 2 * k + 1
  {
    LeadingBits(s, k);
    Log2Small(s / 256);
  }

  lemma LastBinMinSize()
    ensures MinSize(31) <= 0x100_0000
  {
    assert Pow2(8) == 256;
    Pow2Sum(8, 8);
    Pow2Sum(16, 8);
    assert Pow2(24) == 2 * Pow2(23);
    assert Pow2(23) == 2 * Pow2(22);
  }

  lemma EvenBin(s: word, k: nat, p: nat)
    requires p == Pow2(k + 7) && 2 * p <= s < 3 * p
    ensures MinSize(2 * k) <= s < MinSize(2 * k + 1)
  {
    MinSizes(k);
  }

  lemma OddBin(s: word, k: nat, p: nat)
    requires p == Pow2(k + 7) && 3 * p <= s < 4 * p
    ensures MinSize(2 * k + 1) <= s < MinSize(2 * k + 2)
  {
    var k' := k + 1;
    MinSizes(k);
    MinSizes(k');
    assert 2 * k' == 2 * k + 2 && k' + 6 == k + 7;
  }

  lemma Log2Small(x: nat)
    requires 0 < x <= 0xFFFF
    ensures Log2(x) < 16
  {
    Log2Bounds(x);
    assert Pow2(8) == 256;
    Pow2Sum(8, 8);
    if Log2(x) >= 16 {
      Pow2Monotone(16, Log2(x));
    }
  }

  lemma MinSizes(k: nat)
    ensures MinSize(2 * k) == 2 * Pow2(k + 7) && MinSize(2 * k + 1) == 3 * Pow2(k + 7)
    ensures k > 0 ==> MinSize(2 * k) == 4 * Pow2(k + 6)
  {
    assert Pow2(k + 8) == 2 * Pow2(k + 7);
    assert (2 * k) / 2 == k && (2 * k) % 2 == 0;
    assert (2 * k + 1) / 2 == k && (2 * k + 1) % 2 == 1;
  }

  /** A larger bin holds only larger sizes. */
  lemma IndexMonotone(s: word, t: word)
    requires s >= MIN_LARGE_SIZE && t >= MIN_LARGE_SIZE && Index(s) < Index(t)
    ensures s < t
  {
    IndexRange(s);
    IndexRange(t);
    MinSizeMonotone(Index(s) + 1, Index(t));
  }

  /** Sizes of one bin agree on the bits that leftshift_for_tree_index skips. */
  lemma SameIndexPrefix(s: word, t: word)
    requires s >= MIN_LARGE_SIZE && t >= MIN_LARGE_SIZE && Index(s) == Index(t)
    ensures Index(s) < NTREEBINS
    ensures Prefix(s, LeftShift(Index(s))) == Prefix(t, LeftShift(Index(s)))
  {
    IndexRange(s);
    IndexRange(t);
    var i := Index(s);
    if i < NTREEBINS - 1 {
      PrefixByDivision(s, LeftShift(i));
      PrefixByDivision(t, LeftShift(i));
      SkippedBits(s, i);
      SkippedBits(t, i);
    }
  }

  lemma SkippedBits(s: word, i: nat)
    requires i < NTREEBINS - 1 && MinSize(i) <= s < MinSize(i + 1)
    ensures s / Pow2(i / 2 + 7) == 2 + i % 2
  {
    var p := Pow2(i / 2 + 7);
    assert Pow2(i / 2 + 8) == 2 * p;
    assert Pow2(i / 2 + 9) == 4 * p;
    MulDiv(2 + i % 2, s - MinSize(i), p);
  }
}
