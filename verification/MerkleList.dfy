/**
 The pairwise Merkle tree over a list, with the last node of an odd level paired with itself and no
 tag on inner nodes. It still binds its list when the leaf preimages are distinct and longer than 64
 bytes: two lists with one root are equal, or a break of the hash function is computed from them.
 */
module MerkleList {
  import opened Bytes

  /** One level up. */
  function Pair(H: Hash, level: seq<Digest>): (up: seq<Digest>)
    ensures |up| == (|level| + 1) / 2
    ensures forall i :: 0 <= i < |up| ==> up[i] == H(PairInput(level, i))
  {
    seq<Digest>((|level| + 1) / 2, i requires 0 <= i < (|level| + 1) / 2 => H(PairInput(level, i)))
  }

  function PairInput(level: seq<Digest>, i: nat): (x: Bytes)
    requires 2 * i < |level|
    ensures |x| == 64
  {
    Join(level[2 * i], level[if 2 * i + 1 < |level| then 2 * i + 1 else 2 * i])
  }

  function Join(a: Bytes, b: Bytes): Bytes {
    a + b
  }

  function Top(H: Hash, level: seq<Digest>): Digest
    requires level != []
    decreases |level|
  {
    if |level| == 1 then level[0] else Top(H, Pair(H, level))
  }

  /** The level loop, chunk by chunk. */
  method ComputeTop(H: Hash, leaves: seq<Digest>) returns (root: Digest)
    requires leaves != []
    ensures root == Top(H, leaves)
  {
    var level := leaves;
    while |level| > 1
      invariant level != [] && Top(H, level) == Top(H, leaves)
      decreases |level|
    {
      var next: seq<Digest> := [];
      var i := 0;
      while i < |level|
        invariant i == 2 * |next| && |next| <= (|level| + 1) / 2
        invariant forall j :: 0 <= j < |next| ==> next[j] == Pair(H, level)[j]
      {
        if i + 1 < |level| {
          next := next + [H(Join(level[i], level[i + 1]))];
        } else {
          next := next + [H(Join(level[i], level[i]))];
        }
        i := i + 2;
      }
      assert next == Pair(H, level);
      level := next;
    }
    root := level[0];
  }

  // ----- levels over leaf preimages

  function Hashes(H: Hash, xs: seq<Bytes>): (hs: seq<Digest>)
    ensures |hs| == |xs| && forall i :: 0 <= i < |xs| ==> hs[i] == H(xs[i])
  {
    seq<Digest>(|xs|, i requires 0 <= i < |xs| => H(xs[i]))
  }

  function Size(n: nat, k: nat): nat {
    if k == 0 then n else (Size(n, k - 1) + 1) / 2
  }

  /** Level `k` above the leaves. */
  function Level(H: Hash, xs: seq<Bytes>, k: nat): (l: seq<Digest>)
    ensures |l| == Size(|xs|, k)
    decreases k, |xs|
  {
    if k == 0 then Hashes(H, xs) else Pair(H, Level(H, xs, k - 1))
  }

  /** What was hashed into node `i` of level `k`. */
  function Input(H: Hash, xs: seq<Bytes>, k: nat, i: nat): (x: Bytes)
    requires i < Size(|xs|, k)
    ensures H(x) == Level(H, xs, k)[i]
  {
    if k == 0 then xs[i] else PairInput(Level(H, xs, k - 1), i)
  }

  function Depth(n: nat): nat
    requires n > 0
  {
    if n == 1 then 0 else 1 + Depth((n + 1) / 2)
  }

  lemma {:induction false} LevelShift(H: Hash, xs: seq<Bytes>, k: nat)
    requires Size(|xs|, k) > 0
    ensures Size(|xs|, k + Depth(Size(|xs|, k))) == 1
    ensures Top(H, Level(H, xs, k)) == Level(H, xs, k + Depth(Size(|xs|, k)))[0]
    decreases Size(|xs|, k)
  {
    hide Pair, Hashes;
    if Size(|xs|, k) > 1 {
      assert Level(H, xs, k + 1) == Pair(H, Level(H, xs, k));
      LevelShift(H, xs, k + 1);
      assert k + Depth(Size(|xs|, k)) == k + 1 + Depth(Size(|xs|, k + 1));
    }
  }

  ghost predicate LongDistinct(xs: seq<Bytes>) {
    && (forall i | 0 <= i < |xs| :: |xs[i]| > 64)
    && (forall i, j | 0 <= i < j < |xs| :: xs[i] != xs[j])
  }

  // ----- equal nodes have equal leftmost leaves

  function LeftLeaf(i: nat, k: nat): nat
    decreases k
  {
    if k == 0 then i else LeftLeaf(2 * i, k - 1)
  }

  lemma {:induction false} LeftLeafInjective(i: nat, j: nat, k: nat)
    requires i != j
    ensures LeftLeaf(i, k) != LeftLeaf(j, k)
    decreases k
  {
    if k > 0 { LeftLeafInjective(2 * i, 2 * j, k - 1); }
  }

  lemma SizeStep(n: nat, k: nat, i: nat)
    requires k > 0 && i < Size(n, k)
    ensures 2 * i < Size(n, k - 1)
  {
  }

  /** Descends along left children from two equal nodes to the first place where the hashed bytes differ. */
  function Descend(H: Hash, xs: seq<Bytes>, k: nat, i: nat, ys: seq<Bytes>, m: nat, j: nat): Option<Evidence>
    requires i < Size(|xs|, k) && j < Size(|ys|, m)
    decreases k, |xs|
  {
    var x, y := Input(H, xs, k, i), Input(H, ys, m, j);
    if x != y then Some(Collision(x, y))
    else if k == 0 || m == 0 then None
    else
      SizeStep(|xs|, k, i);
      SizeStep(|ys|, m, j);
      Descend(H, xs, k - 1, 2 * i, ys, m - 1, 2 * j)
  }

  lemma {:induction false} DescendSound(H: Hash, xs: seq<Bytes>, k: nat, i: nat, ys: seq<Bytes>, m: nat, j: nat)
    requires i < Size(|xs|, k) && j < Size(|ys|, m) && LongDistinct(xs) && LongDistinct(ys)
    requires Level(H, xs, k)[i] == Level(H, ys, m)[j]
    ensures match Descend(H, xs, k, i, ys, m, j)
            case Some(e) => Breaks(H, e)
            case None =>
              k == m && LeftLeaf(i, k) < |xs| && LeftLeaf(j, m) < |ys| &&
              xs[LeftLeaf(i, k)] == ys[LeftLeaf(j, m)]
    decreases k
  {
    hide Pair;
    var x, y := Input(H, xs, k, i), Input(H, ys, m, j);
    if x == y && k > 0 && m > 0 {
      PairInputParts(Level(H, xs, k - 1), i, Level(H, ys, m - 1), j);
      DescendSound(H, xs, k - 1, 2 * i, ys, m - 1, 2 * j);
    }
  }

  lemma PairInputParts(a: seq<Digest>, i: nat, b: seq<Digest>, j: nat)
    requires 2 * i < |a| && 2 * j < |b| && PairInput(a, i) == PairInput(b, j)
    ensures a[2 * i] == b[2 * j]
    ensures a[if 2 * i + 1 < |a| then 2 * i + 1 else 2 * i] == b[if 2 * j + 1 < |b| then 2 * j + 1 else 2 * j]
  {
    FixedInjective(a[2 * i], a[if 2 * i + 1 < |a| then 2 * i + 1 else 2 * i],
                   b[2 * j], b[if 2 * j + 1 < |b| then 2 * j + 1 else 2 * j]);
  }

  /** Two nodes of one level never agree unless the hash breaks. */
  lemma TwinsBreak(H: Hash, xs: seq<Bytes>, k: nat, i: nat, j: nat)
    requires i < Size(|xs|, k) && j < Size(|xs|, k) && i != j && LongDistinct(xs)
    requires Level(H, xs, k)[i] == Level(H, xs, k)[j]
    ensures Descend(H, xs, k, i, xs, k, j).Some? && Breaks(H, Descend(H, xs, k, i, xs, k, j).value)
  {
    hide Pair, Level, Input, LeftLeaf;
    DescendSound(H, xs, k, i, xs, k, j);
    LeftLeafInjective(i, j, k);
  }

  // ----- walking down to one leaf position

  function IndexAt(p: nat, k: nat): nat {
    if k == 0 then p else IndexAt(p, k - 1) / 2
  }

  lemma {:induction false} IndexInRange(p: nat, n: nat, k: nat)
    requires p < n
    ensures IndexAt(p, k) < Size(n, k)
  {
    if k > 0 { IndexInRange(p, n, k - 1); }
  }

  /** From equal nodes above position `p`, the first difference on the way down to `p`. */
  function Walk(H: Hash, xs: seq<Bytes>, ys: seq<Bytes>, k: nat, p: nat): Option<Evidence>
    requires IndexAt(p, k) < Size(|xs|, k) && IndexAt(p, k) < Size(|ys|, k)
    decreases k, |xs|
  {
    var i := IndexAt(p, k);
    var x, y := Input(H, xs, k, i), Input(H, ys, k, i);
    if x != y then Some(Collision(x, y))
    else if k == 0 then None
    else
      IndexStep(p, k, |xs|, |ys|);
      var c := IndexAt(p, k - 1);
      if c < Size(|xs|, k - 1) && c < Size(|ys|, k - 1) then Walk(H, xs, ys, k - 1, p)
      else if c < Size(|ys|, k - 1) then Descend(H, ys, k - 1, 2 * i, ys, k - 1, c)
      else if c < Size(|xs|, k - 1) then Descend(H, xs, k - 1, 2 * i, xs, k - 1, c)
      else None
  }

  lemma {:induction false} WalkSound(H: Hash, xs: seq<Bytes>, ys: seq<Bytes>, k: nat, p: nat)
    requires IndexAt(p, k) < Size(|xs|, k) && IndexAt(p, k) < Size(|ys|, k)
    requires LongDistinct(xs) && LongDistinct(ys) && (p < |xs| || p < |ys|)
    requires Level(H, xs, k)[IndexAt(p, k)] == Level(H, ys, k)[IndexAt(p, k)]
    ensures match Walk(H, xs, ys, k, p)
            case Some(e) => Breaks(H, e)
            case None => p < |xs| && p < |ys| && xs[p] == ys[p]
  {
    hide Pair, Descend, LongDistinct, Level, Input, Size, IndexAt;
    var i := IndexAt(p, k);
    if Input(H, xs, k, i) != Input(H, ys, k, i) {
    } else if k == 0 {
      LeafInputs(H, xs, ys, p);
    } else {
      var c := IndexAt(p, k - 1);
      if p < |xs| { IndexInRange(p, |xs|, k - 1); } else { IndexInRange(p, |ys|, k - 1); }
      InputParts(H, xs, ys, k, i);
      IndexStep(p, k, |xs|, |ys|);
      if c < Size(|xs|, k - 1) && c < Size(|ys|, k - 1) {
        WalkSound(H, xs, ys, k - 1, p);
      } else if c < Size(|ys|, k - 1) {
        TwinsBreak(H, ys, k - 1, 2 * i, c);
      } else {
        TwinsBreak(H, xs, k - 1, 2 * i, c);
      }
    }
  }

  lemma LeafInputs(H: Hash, xs: seq<Bytes>, ys: seq<Bytes>, p: nat)
    requires IndexAt(p, 0) < Size(|xs|, 0) && IndexAt(p, 0) < Size(|ys|, 0)
    requires Input(H, xs, 0, IndexAt(p, 0)) == Input(H, ys, 0, IndexAt(p, 0))
    ensures p < |xs| && p < |ys| && xs[p] == ys[p]
  {
  }

  /** Going one level down: a child index missing on one side is the odd one. */
  lemma IndexStep(p: nat, k: nat, m: nat, n: nat)
    requires k > 0 && IndexAt(p, k) < Size(m, k) && IndexAt(p, k) < Size(n, k)
    ensures var i, c := IndexAt(p, k), IndexAt(p, k - 1);
            && 2 * i < Size(m, k - 1) && 2 * i < Size(n, k - 1) && 2 * i <= c <= 2 * i + 1
  {
  }

  lemma InputParts(H: Hash, xs: seq<Bytes>, ys: seq<Bytes>, k: nat, i: nat)
    requires k > 0 && i < Size(|xs|, k) && i < Size(|ys|, k) && Input(H, xs, k, i) == Input(H, ys, k, i)
    ensures var a, b := Level(H, xs, k - 1), Level(H, ys, k - 1);
            && 2 * i < |a| && 2 * i < |b| && a[2 * i] == b[2 * i]
            && a[if 2 * i + 1 < |a| then 2 * i + 1 else 2 * i] == b[if 2 * i + 1 < |b| then 2 * i + 1 else 2 * i]
  {
    hide Level;
    PairInputParts(Level(H, xs, k - 1), i, Level(H, ys, k - 1), i);
  }

  // ----- binding

  function RootOfList(H: Hash, xs: seq<Bytes>): Digest
    requires xs != []
  {
    Top(H, Hashes(H, xs))
  }

  /** The first position from `p` on whose walk finds a break. */
  function Search(H: Hash, xs: seq<Bytes>, ys: seq<Bytes>, k: nat, p: nat): Option<Evidence>
    decreases |xs| + |ys| - p
  {
    if p >= |xs| && p >= |ys| then None
    else if !(IndexAt(p, k) < Size(|xs|, k) && IndexAt(p, k) < Size(|ys|, k)) then None
    else
      match Walk(H, xs, ys, k, p)
      case Some(e) => Some(e)
      case None => Search(H, xs, ys, k, p + 1)
  }

  function ListBreak(H: Hash, xs: seq<Bytes>, ys: seq<Bytes>): Option<Evidence>
    requires xs != [] && ys != []
  {
    var k, m := Depth(|xs|), Depth(|ys|);
    if Size(|xs|, k) == 0 || Size(|ys|, m) == 0 then None
    else if k != m then Descend(H, xs, k, 0, ys, m, 0)
    else Search(H, xs, ys, k, 0)
  }

  lemma {:induction false} SearchSound(H: Hash, xs: seq<Bytes>, ys: seq<Bytes>, k: nat, p: nat)
    requires LongDistinct(xs) && LongDistinct(ys) && Size(|xs|, k) == 1 == Size(|ys|, k)
    requires Level(H, xs, k)[0] == Level(H, ys, k)[0]
    requires p <= |xs| && p <= |ys| && xs[..p] == ys[..p]
    ensures match Search(H, xs, ys, k, p)
            case Some(e) => Breaks(H, e)
            case None => xs == ys
    decreases |xs| + |ys| - p
  {
    hide Walk, Level, LongDistinct, Size, IndexAt;
    if p >= |xs| && p >= |ys| {
      assert xs[..p] == xs && ys[..p] == ys;
    } else {
      if p < |xs| { IndexInRange(p, |xs|, k); } else { IndexInRange(p, |ys|, k); }
      WalkSound(H, xs, ys, k, p);
      if Walk(H, xs, ys, k, p).None? {
        assert xs[..p + 1] == xs[..p] + [xs[p]] && ys[..p + 1] == ys[..p] + [ys[p]];
        SearchSound(H, xs, ys, k, p + 1);
      }
    }
  }

  /** Lists of distinct long leaves with one root are equal, or the hash breaks. */
  lemma ListBinding(H: Hash, xs: seq<Bytes>, ys: seq<Bytes>)
    requires xs != [] && ys != [] && LongDistinct(xs) && LongDistinct(ys)
    requires RootOfList(H, xs) == RootOfList(H, ys)
    ensures match ListBreak(H, xs, ys)
            case Some(e) => Breaks(H, e)
            case None => xs == ys
  {
    hide Search, Pair, LongDistinct, Descend;
    var k, m := Depth(|xs|), Depth(|ys|);
    LevelShift(H, xs, 0);
    LevelShift(H, ys, 0);
    if k != m {
      DescendSound(H, xs, k, 0, ys, m, 0);
    } else {
      SearchSound(H, xs, ys, k, 0);
    }
  }
}
