/**
 Bytes, 32-byte digests and the two shapes of evidence against a hash function.
 The hash function itself is never fixed: every result quantifies over `Hash`.
 */
module Bytes {

  type Byte = b: int | 0 <= b < 256
  type Bytes = seq<Byte>
  /** Rust strings are their UTF-8 bytes. */
  type Str = Bytes
  type Digest = s: Bytes | |s| == 32 witness Zeros(32)

  function Zeros(n: nat): (z: Bytes)
    ensures |z| == n && forall i :: 0 <= i < n ==> z[i] == 0
  {
    if n == 0 then [] else [0] + Zeros(n - 1)
  }

  /** SHA-256 as an arbitrary total function from byte strings to 32-byte digests. */
  type Hash = Bytes -> Digest

  const ZERO: Digest := Zeros(32)

  datatype Option<+T> = None | Some(value: T)

  /** What a broken hash function looks like: two inputs with one digest, or an input hashing to zero. */
  datatype Evidence = Collision(x: Bytes, y: Bytes) | ZeroPreimage(x: Bytes)

  predicate Breaks(H: Hash, e: Evidence) {
    match e
    case Collision(x, y) => x != y && H(x) == H(y)
    case ZeroPreimage(x) => H(x) == ZERO
  }

  // ----- fixed-width integers and length-prefixed fields

  /** `to_be_bytes` of a u32; larger numbers lose their high bits, as `as u32` does. */
  function U32(n: nat): (b: Bytes)
    ensures |b| == 4
  {
    [n / 0x100_0000 % 256, n / 0x1_0000 % 256, n / 0x100 % 256, n % 256]
  }

  /** `to_be_bytes` of a u64. */
  function U64(n: nat): Bytes {
    U32(n / 0x1_0000_0000) + U32(n)
  }

  function Prefixed(s: Bytes): Bytes {
    U32(|s|) + s
  }

  const TWO_32: nat := 0x1_0000_0000
  const TWO_64: nat := 0x1_0000_0000_0000_0000

  lemma U32Injective(m: nat, n: nat)
    requires U32(m) == U32(n)
    ensures m % TWO_32 == n % TWO_32
  {
    U32Value(m);
    U32Value(n);
    assert U32(m)[0] == U32(n)[0] && U32(m)[1] == U32(n)[1] && U32(m)[2] == U32(n)[2] && U32(m)[3] == U32(n)[3];
  }

  lemma U32Value(n: nat)
    ensures n % TWO_32 ==
            0x100_0000 * (n / 0x100_0000 % 256) + 0x1_0000 * (n / 0x1_0000 % 256) + 0x100 * (n / 0x100 % 256) + n % 256
  {
    var a := n / 256;
    var b := a / 256;
    var c := b / 256;
    var d := c / 256;
    DivideTwice(n);
    assert n == TWO_32 * d + (0x100_0000 * (c % 256) + 0x1_0000 * (b % 256) + 0x100 * (a % 256) + n % 256);
  }

  lemma DivideTwice(n: nat)
    ensures n / 0x1_0000 == n / 256 / 256 && n / 0x100_0000 == n / 256 / 256 / 256
  {
  }

  lemma U64Injective(m: nat, n: nat)
    requires m < TWO_64 && n < TWO_64 && U64(m) == U64(n)
    ensures m == n
  {
    hide U32;
    assert U64(m)[..4] == U32(m / TWO_32) && U64(m)[4..] == U32(m);
    assert U64(n)[..4] == U32(n / TWO_32) && U64(n)[4..] == U32(n);
    U32Injective(m / TWO_32, n / TWO_32);
    U32Injective(m, n);
  }

  /** Fields with a length in front can be read back one by one. */
  lemma PrefixedInjective(a: Bytes, x: Bytes, b: Bytes, y: Bytes)
    requires |a| < TWO_32 && |b| < TWO_32 && Prefixed(a) + x == Prefixed(b) + y
    ensures a == b && x == y
  {
    hide U32;
    assert Prefixed(a) + x == U32(|a|) + (a + x) && Prefixed(b) + y == U32(|b|) + (b + y);
    FixedInjective(U32(|a|), a + x, U32(|b|), b + y);
    U32Injective(|a|, |b|);
    FixedInjective(a, x, b, y);
  }

  lemma FixedInjective(a: Bytes, x: Bytes, b: Bytes, y: Bytes)
    requires |a| == |b| && a + x == b + y
    ensures a == b && x == y
  {
    assert (a + x)[..|a|] == a && (b + y)[..|b|] == b;
    assert (a + x)[|a|..] == x && (b + y)[|b|..] == y;
  }
}
