/**
 * Slot addressing shared by both ring buffers: a sequence is mapped to a slot
 * with `(int) (sequence & mask)`, where `mask == bufferSize - 1` and the buffer
 * size is a power of two.
 */
module RingIndex {

  /** Largest Java `int`. */
  const INT_MAX: int := 0x7fff_ffff

  /** 1, 2, 4, 8, ... */
  predicate IsPowerOfTwo(n: int)
    decreases if n < 0 then 0 else n
  {
    n == 1 || (n >= 2 && n % 2 == 0 && IsPowerOfTwo(n / 2))
  }

  /**
   * Bitwise AND of a two's-complement integer `a` with a non-negative `b`,
   * defined bit by bit: `a % 2` is the low bit and `a / 2` the arithmetic
   * shift right (both Euclidean, so this holds for negative `a` too). For a
   * Java `long` and a non-negative `int` mask this is Java's `a & b`.
   */
  function And(a: int, b: nat): nat
    decreases b
  {
    if b == 0 then 0
    else 2 * And(a / 2, b / 2) + (if a % 2 == 1 && b % 2 == 1 then 1 else 0)
  }

  /** `(int) (sequence & mask)`, the slot a sequence is stored in. */
  function Index(sequence: int, mask: nat): nat
  {
    And(sequence, mask)
  }

  /** Masking never yields more than the mask. */
  lemma {:induction false} AndAtMostMask(a: int, b: nat)
    ensures And(a, b) <= b
    decreases b
  {
    if b != 0 {
      AndAtMostMask(a / 2, b / 2);
    }
  }

  /** Euclidean remainder is determined by any quotient/remainder split. */
  lemma ModUnique(x: int, n: int, q: int, r: int)
    requires n > 0 && x == n * q + r && 0 <= r < n
    ensures x % n == r
  {
    var q', r' := x / n, x % n;
    assert x == n * q' + r';
    assert n * (q - q') == r' - r;
    MultipleOfPositiveInRange(n, q - q');
  }

  /** A multiple of `n` strictly between `-n` and `n` is zero. */
  lemma MultipleOfPositiveInRange(n: int, d: int)
    requires n > 0 && -n < n * d < n
    ensures d == 0
  {
  }

  /** Halving step of the remainder by an even modulus. */
  lemma ModHalves(a: int, h: int)
    requires h > 0
    ensures a % (2 * h) == 2 * ((a / 2) % h) + a % 2
  {
    var q, r := (a / 2) / h, (a / 2) % h;
    assert a / 2 == h * q + r;
    assert a == 2 * (a / 2) + a % 2;
    assert a == (2 * h) * q + (2 * r + a % 2);
    ModUnique(a, 2 * h, q, 2 * r + a % 2);
  }

  /** For a power-of-two size, masking with `size - 1` is the remainder modulo `size`. */
  lemma {:induction false} MaskIsMod(a: int, n: int)
    requires IsPowerOfTwo(n)
    ensures And(a, n - 1) == a % n
    decreases n
  {
    if n != 1 {
      var h := n / 2;
      assert n == 2 * h;
      MaskIsMod(a / 2, h);
      assert (n - 1) / 2 == h - 1;
      ModHalves(a, h);
    }
  }

  /**
   * The slot of a sequence lies in `[0, size)` and equals the sequence modulo
   * the size (negative sequences included).
   */
  lemma IndexIsMod(sequence: int, size: int)
    requires IsPowerOfTwo(size)
    ensures Index(sequence, size - 1) == sequence % size
    ensures 0 <= Index(sequence, size - 1) < size
  {
    MaskIsMod(sequence, size);
    AndAtMostMask(sequence, size - 1);
  }

  /** Adding a multiple of `n` does not change the remainder. */
  lemma ModShift(x: int, n: int, k: int)
    requires n > 0
    ensures (x + k * n) % n == x % n
  {
    var q, r := x / n, x % n;
    assert x == n * q + r;
    assert k * n == n * k;
    assert n * q + n * k == n * (q + k);
    ModUnique(x + k * n, n, q + k, r);
  }

  /** Sequences whose difference is a multiple of the size share a slot. */
  lemma IndexPeriodic(sequence: int, size: int, k: int)
    requires IsPowerOfTwo(size)
    ensures Index(sequence + k * size, size - 1) == Index(sequence, size - 1)
  {
    IndexIsMod(sequence, size);
    IndexIsMod(sequence + k * size, size);
    ModShift(sequence, size, k);
  }

  /** Two sequences share a slot exactly when they are congruent modulo the size. */
  lemma SameIndexIffCongruent(s: int, t: int, size: int)
    requires IsPowerOfTwo(size)
    ensures Index(s, size - 1) == Index(t, size - 1) <==> s % size == t % size
  {
    IndexIsMod(s, size);
    IndexIsMod(t, size);
  }

  /**
   * Fewer than `size` sequences apart means different slots: the producer can
   * run up to `size - 1` sequences ahead of a slot without writing it again.
   */
  lemma IndexDistinctWithinCapacity(s: int, t: int, size: int)
    requires IsPowerOfTwo(size)
    requires s < t < s + size
    ensures Index(s, size - 1) != Index(t, size - 1)
  {
    IndexIsMod(s, size);
    IndexIsMod(t, size);
    ModDistinct(s, t, size);
  }

  /** Numbers fewer than `n` apart have different remainders modulo `n`. */
  lemma ModDistinct(s: int, t: int, n: int)
    requires n > 0 && s < t < s + n
    ensures s % n != t % n
  {
    var q, r := s / n, s % n;
    var d := t - s;
    assert s == n * q + r;
    assert t == n * q + (r + d);
    if r + d < n {
      ModUnique(t, n, q, r + d);
    } else {
      assert n * q + (r + d) == n * (q + 1) + (r + d - n);
      ModUnique(t, n, q + 1, r + d - n);
    }
  }


}
