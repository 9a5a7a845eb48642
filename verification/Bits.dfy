/**
 The 256 bits of a key, most significant first: `bit_at`, `path_prefix` and `flip_bit`.
 Shifts, masks and exclusive-or are written by halving and doubling.
 */
module Bits {
  import opened Bytes

  const TREE_DEPTH: nat := 256

  // ----- machine words as naturals

  function Pow2(k: nat): (p: nat)
    ensures p >= 1
  {
    if k == 0 then 1 else 2 * Pow2(k - 1)
  }

  /** `(n >> k) & 1`. */
  function Bit(n: nat, k: nat): (b: nat)
    ensures b == 0 || b == 1
  {
    if k == 0 then n % 2 else Bit(n / 2, k - 1)
  }

  /** `n & !((1 << k) - 1)`. */
  function ClearLow(n: nat, k: nat): (m: nat)
    ensures m <= n
  {
    if k == 0 then n else 2 * ClearLow(n / 2, k - 1)
  }

  /** `n ^ (1 << k)`. */
  function Toggle(n: nat, k: nat): (m: nat) {
    if k > 0 then 2 * Toggle(n / 2, k - 1) + n % 2
    else if n % 2 == 0 then n + 1 else n - 1
  }

  lemma {:induction false} ClearLowBit(n: nat, k: nat, j: nat)
    ensures Bit(ClearLow(n, k), j) == if j < k then 0 else Bit(n, j)
  {
    if k > 0 && j > 0 { ClearLowBit(n / 2, k - 1, j - 1); }
  }

  lemma {:induction false} ToggleBit(n: nat, k: nat, j: nat)
    ensures Bit(Toggle(n, k), j) == if j == k then 1 - Bit(n, j) else Bit(n, j)
  {
    if k > 0 {
      ToggleHalf(n, k);
      if j > 0 { ToggleBit(n / 2, k - 1, j - 1); }
    } else {
      FlipLow(n);
    }
  }

  lemma ToggleHalf(n: nat, k: nat)
    requires k > 0
    ensures Toggle(n, k) / 2 == Toggle(n / 2, k - 1) && Toggle(n, k) % 2 == n % 2
  {
  }

  lemma FlipLow(n: nat)
    ensures Toggle(n, 0) / 2 == n / 2 && Toggle(n, 0) % 2 == 1 - n % 2
  {
  }

  lemma {:induction false} ToggleBound(n: nat, k: nat, width: nat)
    requires n < Pow2(width) && k < width
    ensures Toggle(n, k) < Pow2(width)
  {
    var half := Pow2(width - 1);
    assert Pow2(width) == 2 * half;
    if k > 0 {
      ToggleBound(n / 2, k - 1, width - 1);
      assert Toggle(n / 2, k - 1) + 1 <= half;
    }
  }

  lemma {:induction false} WordFromBits(a: nat, b: nat, width: nat)
    requires a < Pow2(width) && b < Pow2(width)
    requires forall j: nat :: j < width ==> Bit(a, j) == Bit(b, j)
    ensures a == b
  {
    if width > 0 {
      forall j: nat | j < width - 1 ensures Bit(a / 2, j) == Bit(b / 2, j) {
        assert Bit(a, j + 1) == Bit(b, j + 1);
      }
      WordFromBits(a / 2, b / 2, width - 1);
      assert Bit(a, 0) == Bit(b, 0);
    }
  }

  lemma ByteWidth()
    ensures Pow2(8) == 256
  {
    assert Pow2(4) == 16;
  }

  // ----- keys

  function BitAt(key: Digest, i: nat): (b: nat)
    requires i < TREE_DEPTH
    ensures b == 0 || b == 1
  {
    Bit(key[i / 8], 7 - i % 8)
  }

  /** The first `n` bits of `key`, the rest zero. */
  function PathPrefix(key: Digest, n: nat): (p: Digest)
    requires n <= TREE_DEPTH
  {
    if n == TREE_DEPTH then key
    else key[..n / 8] + [if n % 8 == 0 then 0 else ClearLow(key[n / 8], 8 - n % 8)] + ZERO[n / 8 + 1..]
  }

  function FlipBit(p: Digest, i: nat): (f: Digest)
    requires i < TREE_DEPTH
  {
    ByteWidth();
    ToggleBound(p[i / 8], 7 - i % 8, 8);
    p[i / 8 := Toggle(p[i / 8], 7 - i % 8)]
  }

  lemma PathPrefixBit(key: Digest, n: nat, i: nat)
    requires n <= TREE_DEPTH && i < TREE_DEPTH
    ensures BitAt(PathPrefix(key, n), i) == if i < n then BitAt(key, i) else 0
  {
    if n < TREE_DEPTH && i / 8 == n / 8 {
      ClearLowBit(key[n / 8], 8 - n % 8, 7 - i % 8);
    }
    ZeroBit(7 - i % 8);
  }

  lemma {:induction false} ZeroBit(k: nat)
    ensures Bit(0, k) == 0
  {
    if k > 0 { ZeroBit(k - 1); }
  }

  lemma FlipBitBit(p: Digest, i: nat, j: nat)
    requires i < TREE_DEPTH && j < TREE_DEPTH
    ensures BitAt(FlipBit(p, i), j) == if i == j then 1 - BitAt(p, j) else BitAt(p, j)
  {
    if i / 8 == j / 8 {
      ToggleBit(p[i / 8], 7 - i % 8, 7 - j % 8);
    }
  }

  lemma KeyFromBits(a: Digest, b: Digest)
    requires forall i: nat :: i < TREE_DEPTH ==> BitAt(a, i) == BitAt(b, i)
    ensures a == b
  {
    ByteWidth();
    forall k | 0 <= k < 32 ensures a[k] == b[k] {
      forall j: nat | j < 8 ensures Bit(a[k], j) == Bit(b[k], j) {
        assert BitAt(a, 8 * k + 7 - j) == BitAt(b, 8 * k + 7 - j);
      }
      WordFromBits(a[k], b[k], 8);
    }
  }

  // ----- prefixes as tree positions

  /** `p` names a node `n` levels below the root: its bits from `n` on are zero. */
  predicate IsPrefix(p: Digest, n: nat)
    requires n <= TREE_DEPTH
  {
    PathPrefix(p, n) == p
  }

  lemma PrefixByBits(p: Digest, n: nat)
    requires n <= TREE_DEPTH
    requires forall i: nat :: n <= i < TREE_DEPTH ==> BitAt(p, i) == 0
    ensures IsPrefix(p, n)
  {
    forall i: nat | i < TREE_DEPTH ensures BitAt(PathPrefix(p, n), i) == BitAt(p, i) {
      PathPrefixBit(p, n, i);
    }
    KeyFromBits(PathPrefix(p, n), p);
  }

  lemma PathPrefixIsPrefix(key: Digest, n: nat)
    requires n <= TREE_DEPTH
    ensures IsPrefix(PathPrefix(key, n), n)
  {
    forall i: nat | n <= i < TREE_DEPTH ensures BitAt(PathPrefix(key, n), i) == 0 {
      PathPrefixBit(key, n, i);
    }
    PrefixByBits(PathPrefix(key, n), n);
  }

  /** One step down: the child of a prefix on the way to `key`, and the child off the way. */
  lemma PathPrefixStep(key: Digest, n: nat)
    requires n < TREE_DEPTH
    ensures PathPrefix(key, n + 1) ==
            if BitAt(key, n) == 0 then PathPrefix(key, n) else FlipBit(PathPrefix(key, n), n)
    ensures FlipBit(PathPrefix(key, n + 1), n) ==
            if BitAt(key, n) == 0 then FlipBit(PathPrefix(key, n), n) else PathPrefix(key, n)
  {
    hide PathPrefix, FlipBit, BitAt;
    var p, q := PathPrefix(key, n), PathPrefix(key, n + 1);
    forall i: nat | i < TREE_DEPTH
      ensures BitAt(q, i) == if BitAt(key, n) == 0 then BitAt(p, i) else BitAt(FlipBit(p, n), i)
      ensures BitAt(FlipBit(q, n), i) == if BitAt(key, n) == 0 then BitAt(FlipBit(p, n), i) else BitAt(p, i)
    {
      PathPrefixBit(key, n, i);
      PathPrefixBit(key, n + 1, i);
      FlipBitBit(p, n, i);
      FlipBitBit(q, n, i);
    }
    if BitAt(key, n) == 0 {
      KeyFromBits(q, p);
      KeyFromBits(FlipBit(q, n), FlipBit(p, n));
    } else {
      KeyFromBits(q, FlipBit(p, n));
      KeyFromBits(FlipBit(q, n), p);
    }
  }

  /** A prefix has two children one level down, and both lead back to it. */
  lemma ChildPrefixes(p: Digest, n: nat)
    requires n < TREE_DEPTH && IsPrefix(p, n)
    ensures IsPrefix(p, n + 1) && IsPrefix(FlipBit(p, n), n + 1) && FlipBit(p, n) != p
    ensures BitAt(p, n) == 0 && BitAt(FlipBit(p, n), n) == 1
    ensures PathPrefix(FlipBit(p, n), n) == p
  {
    hide PathPrefix, FlipBit, BitAt;
    PathPrefixBit(p, n, n);
    FlipBitBit(p, n, n);
    forall i: nat | n < i < TREE_DEPTH ensures BitAt(p, i) == 0 && BitAt(FlipBit(p, n), i) == 0 {
      PathPrefixBit(p, n, i);
      FlipBitBit(p, n, i);
    }
    PrefixByBits(p, n + 1);
    PrefixByBits(FlipBit(p, n), n + 1);
    PathPrefixStep(FlipBit(p, n), n);
    FlipTwice(p, n);
  }

  lemma FlipTwice(p: Digest, n: nat)
    requires n < TREE_DEPTH
    ensures FlipBit(FlipBit(p, n), n) == p
  {
    hide FlipBit, BitAt;
    forall i: nat | i < TREE_DEPTH ensures BitAt(FlipBit(FlipBit(p, n), n), i) == BitAt(p, i) {
      FlipBitBit(p, n, i);
      FlipBitBit(FlipBit(p, n), n, i);
    }
    KeyFromBits(FlipBit(FlipBit(p, n), n), p);
  }

  /** Prefixes of a prefix. */
  lemma PathPrefixNested(key: Digest, m: nat, n: nat)
    requires m <= n <= TREE_DEPTH
    ensures PathPrefix(PathPrefix(key, n), m) == PathPrefix(key, m)
  {
    hide PathPrefix, BitAt;
    var a, b := PathPrefix(PathPrefix(key, n), m), PathPrefix(key, m);
    forall i: nat | i < TREE_DEPTH ensures BitAt(a, i) == BitAt(b, i) {
      PathPrefixBit(key, n, i);
      PathPrefixBit(key, m, i);
      PathPrefixBit(PathPrefix(key, n), m, i);
    }
    KeyFromBits(a, b);
  }

  lemma EndPrefixes(key: Digest)
    ensures PathPrefix(key, 0) == ZERO && PathPrefix(key, TREE_DEPTH) == key
  {
    forall k | 0 <= k < 32 ensures PathPrefix(key, 0)[k] == ZERO[k] {
    }
  }
}
