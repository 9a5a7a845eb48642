/**
 Signed attestations: their signed bytes, the Merkle root over a list of them, and equivocation
 proofs. BIP-340 verification is an arbitrary predicate on key, message digest and signature.
 */
module Attestation {
  import opened Bytes
  import opened Order
  import opened MerkleList

  datatype Signed = Signed(chain: Str, height: nat, blockHash: Str, stateRoot: Str, validator: Str, signature: Str,
                           timestamp: int)

  datatype Crypto = Crypto(H: Hash, schnorr: (Str, Digest, Str) -> bool)

  /** "UTXO_VM_ATTESTATION_V1" */
  const PAYLOAD_TAG: Bytes := [85, 84, 88, 79, 95, 86, 77, 95, 65, 84, 84, 69, 83, 84, 65, 84, 73, 79, 78, 95, 86, 49]

  /** "ATTESTATION_LEAF_V1" */
  const LEAF_TAG: Bytes := [65, 84, 84, 69, 83, 84, 65, 84, 73, 79, 78, 95, 76, 69, 65, 70, 95, 86, 49]

  function Payload(chain: Str, height: nat, blockHash: Str, stateRoot: Str): Bytes {
    PAYLOAD_TAG + (Prefixed(chain) + (U64(height) + (Prefixed(blockHash) + Prefixed(stateRoot))))
  }

  function Message(c: Crypto, a: Signed): Digest {
    c.H(Payload(a.chain, a.height, a.blockHash, a.stateRoot))
  }

  /** A 32-byte key and a 64-byte signature in hex, and a valid signature over the payload hash. */
  predicate Verifies(c: Crypto, a: Signed) {
    |a.validator| == 64 && |a.signature| == 128 && c.schnorr(a.validator, Message(c, a), a.signature)
  }

  /** Lengths and heights that fit their fields. */
  predicate Fits(a: Signed) {
    |a.chain| < TWO_32 && a.height < TWO_64 && |a.blockHash| < TWO_32 && |a.stateRoot| < TWO_32 &&
    |a.validator| < TWO_32 && |a.signature| < TWO_32
  }

  /** One signed message, one claim: equal payloads speak of the same chain, height, block and root. */
  lemma PayloadInjective(a: Signed, b: Signed)
    requires Fits(a) && Fits(b)
    requires Payload(a.chain, a.height, a.blockHash, a.stateRoot) ==
             Payload(b.chain, b.height, b.blockHash, b.stateRoot)
    ensures a.chain == b.chain && a.height == b.height && a.blockHash == b.blockHash && a.stateRoot == b.stateRoot
  {
    hide U64, Prefixed;
    var (a2, b2) := (Prefixed(a.blockHash) + Prefixed(a.stateRoot), Prefixed(b.blockHash) + Prefixed(b.stateRoot));
    FixedInjective(PAYLOAD_TAG, Prefixed(a.chain) + (U64(a.height) + a2),
                   PAYLOAD_TAG, Prefixed(b.chain) + (U64(b.height) + b2));
    PrefixedInjective(a.chain, U64(a.height) + a2, b.chain, U64(b.height) + b2);
    WidthOf(a.height);
    WidthOf(b.height);
    FixedInjective(U64(a.height), a2, U64(b.height), b2);
    U64Injective(a.height, b.height);
    PrefixedInjective(a.blockHash, Prefixed(a.stateRoot), b.blockHash, Prefixed(b.stateRoot));
    LastField(a.stateRoot, b.stateRoot);
  }

  lemma WidthOf(n: nat)
    ensures |U64(n)| == 8
  {
  }

  lemma LastField(a: Bytes, b: Bytes)
    requires |a| < TWO_32 && |b| < TWO_32 && Prefixed(a) == Prefixed(b)
    ensures a == b
  {
    assert Prefixed(a) + [] == Prefixed(a) && Prefixed(b) + [] == Prefixed(b);
    PrefixedInjective(a, [], b, []);
  }

  // ----- the Merkle root over supporters

  /** The bytes of an attestation's leaf; the timestamp is left out. */
  function LeafBytes(a: Signed): Bytes {
    LEAF_TAG + (Prefixed(a.chain) + (U64(a.height) + (Prefixed(a.blockHash) + (Prefixed(a.stateRoot) +
    (Prefixed(a.validator) + Prefixed(a.signature))))))
  }

  function Untimed(a: Signed): Signed {
    a.(timestamp := 0)
  }

  lemma LeafInjective(a: Signed, b: Signed)
    requires Fits(a) && Fits(b) && LeafBytes(a) == LeafBytes(b)
    ensures Untimed(a) == Untimed(b)
  {
    hide U64, Prefixed;
    var (a4, b4) := (Prefixed(a.validator) + Prefixed(a.signature), Prefixed(b.validator) + Prefixed(b.signature));
    var (a3, b3) := (Prefixed(a.stateRoot) + a4, Prefixed(b.stateRoot) + b4);
    var (a2, b2) := (Prefixed(a.blockHash) + a3, Prefixed(b.blockHash) + b3);
    FixedInjective(LEAF_TAG, Prefixed(a.chain) + (U64(a.height) + a2),
                   LEAF_TAG, Prefixed(b.chain) + (U64(b.height) + b2));
    PrefixedInjective(a.chain, U64(a.height) + a2, b.chain, U64(b.height) + b2);
    WidthOf(a.height);
    WidthOf(b.height);
    FixedInjective(U64(a.height), a2, U64(b.height), b2);
    U64Injective(a.height, b.height);
    PrefixedInjective(a.blockHash, a3, b.blockHash, b3);
    PrefixedInjective(a.stateRoot, a4, b.stateRoot, b4);
    PrefixedInjective(a.validator, Prefixed(a.signature), b.validator, Prefixed(b.signature));
    LastField(a.signature, b.signature);
  }

  function ValidatorOf(a: Signed): Bytes {
    a.validator
  }

  function LeafList(atts: seq<Signed>): (xs: seq<Bytes>)
    ensures |xs| == |atts| && forall i :: 0 <= i < |atts| ==> xs[i] == LeafBytes(atts[i])
  {
    seq<Bytes>(|atts|, i requires 0 <= i < |atts| => LeafBytes(atts[i]))
  }

  function Sorted(atts: seq<Signed>): seq<Signed> {
    Sort(atts, ValidatorOf)
  }

  lemma SortedLength(atts: seq<Signed>)
    ensures |Sorted(atts)| == |atts|
  {
    SortGroups(atts, ValidatorOf, []);
    assert |multiset(Sorted(atts))| == |multiset(atts)|;
  }

  /** Zero for no attestations; otherwise the tree over the leaves sorted by validator. */
  function MerkleRoot(H: Hash, atts: seq<Signed>): Digest {
    SortedLength(atts);
    if atts == [] then ZERO else RootOfList(H, LeafList(Sorted(atts)))
  }

  method ComputeAttestationMerkleRoot(H: Hash, atts: seq<Signed>) returns (root: Digest)
    ensures root == MerkleRoot(H, atts)
  {
    hide LeafBytes;
    if atts == [] { return ZERO; }
    SortedLength(atts);
    var sorted := Sorted(atts);
    var leaves: seq<Digest> := [];
    for i := 0 to |sorted|
      invariant |leaves| == i && forall j :: 0 <= j < i ==> leaves[j] == H(LeafBytes(sorted[j]))
    {
      leaves := leaves + [H(LeafBytes(sorted[i]))];
    }
    assert leaves == Hashes(H, LeafList(sorted));
    root := ComputeTop(H, leaves);
  }

  /** The root does not depend on arrival order. */
  lemma MerkleRootOrder(H: Hash, xs: seq<Signed>, ys: seq<Signed>)
    requires DistinctKeys(xs, ValidatorOf) && DistinctKeys(ys, ValidatorOf) && multiset(xs) == multiset(ys)
    ensures MerkleRoot(H, xs) == MerkleRoot(H, ys)
  {
    SortPermutation(xs, ys, ValidatorOf);
    assert |multiset(xs)| == |xs| && |multiset(ys)| == |ys|;
  }

  ghost predicate Supporters(c: Crypto, atts: seq<Signed>) {
    && DistinctKeys(atts, ValidatorOf)
    && forall i | 0 <= i < |atts| :: Verifies(c, atts[i]) && Fits(atts[i])
  }

  /** Sorting keeps a supporter list a supporter list. */
  lemma SortedSupporters(c: Crypto, atts: seq<Signed>)
    requires Supporters(c, atts)
    ensures Supporters(c, Sorted(atts)) && LongDistinct(LeafList(Sorted(atts)))
  {
    hide Verifies, LeafBytes, Sort, DistinctKeys, Fits, LongDistinct;
    var s := Sorted(atts);
    SortDistinct(atts, ValidatorOf);
    SortGroups(atts, ValidatorOf, []);
    forall i | 0 <= i < |s| ensures Verifies(c, s[i]) && Fits(s[i]) {
      assert s[i] in multiset(s) && s[i] in multiset(atts);
    }
    SupporterLeaves(c, s);
  }

  lemma SupporterLeaves(c: Crypto, s: seq<Signed>)
    requires Supporters(c, s)
    ensures LongDistinct(LeafList(s))
  {
    hide Verifies, LeafBytes, Fits;
    forall i | 0 <= i < |s| ensures |LeafBytes(s[i])| > 64 {
      LeafIsLong(c, s[i]);
    }
    forall i, j | 0 <= i < j < |s| ensures LeafBytes(s[i]) != LeafBytes(s[j]) {
      LeavesDiffer(s[i], s[j]);
    }
  }

  lemma LeavesDiffer(a: Signed, b: Signed)
    requires Fits(a) && Fits(b) && ValidatorOf(a) != ValidatorOf(b)
    ensures LeafBytes(a) != LeafBytes(b)
  {
    hide LeafBytes;
    if LeafBytes(a) == LeafBytes(b) {
      LeafInjective(a, b);
      assert false;
    }
  }

  lemma SortDistinct<T(!new)>(xs: seq<T>, key: T -> Bytes)
    requires DistinctKeys(xs, key)
    ensures DistinctKeys(Sort(xs, key), key)
  {
    hide Sort, Group;
    var s := Sort(xs, key);
    SortGroups(xs, key, []);
    forall i, j | 0 <= i < j < |s| ensures key(s[i]) != key(s[j]) {
      TwiceInGroup(s, key, i, j);
      SortGroups(xs, key, key(s[i]));
      assert s[i] in multiset(s) && s[i] in multiset(xs);
      var k :| 0 <= k < |xs| && xs[k] == s[i];
      GroupOfDistinct(xs, key, k);
    }
  }

  lemma LeafIsLong(c: Crypto, a: Signed)
    requires Verifies(c, a)
    ensures |LeafBytes(a)| > 64
  {
    hide U32;
  }

  /** Two positions with one key make a group of two. */
  lemma {:induction false} TwiceInGroup<T>(xs: seq<T>, key: T -> Bytes, i: nat, j: nat)
    requires i < j < |xs|
    ensures key(xs[i]) == key(xs[j]) ==> |Group(xs, key, key(xs[i]))| >= 2
  {
    if i > 0 {
      TwiceInGroup(xs[1..], key, i - 1, j - 1);
    } else {
      GroupMember(xs[1..], key, j - 1);
    }
  }

  /** What two lists with one root prove: nothing, or a break of the hash. */
  function RootBreak(H: Hash, xs: seq<Signed>, ys: seq<Signed>): Option<Evidence> {
    SortedLength(xs);
    SortedLength(ys);
    var (ls, rs) := (LeafList(Sorted(xs)), LeafList(Sorted(ys)));
    if xs == [] && ys == [] then None
    else if xs == [] then Some(ZeroPreimage(TopInput(H, rs)))
    else if ys == [] then Some(ZeroPreimage(TopInput(H, ls)))
    else ListBreak(H, ls, rs)
  }

  /** The bytes hashed into the root. */
  function TopInput(H: Hash, xs: seq<Bytes>): Bytes
    requires xs != []
  {
    var k := Depth(|xs|);
    if Size(|xs|, k) == 0 then [] else Input(H, xs, k, 0)
  }

  lemma TopInputHashes(H: Hash, xs: seq<Bytes>)
    requires xs != []
    ensures H(TopInput(H, xs)) == RootOfList(H, xs)
  {
    LevelShift(H, xs, 0);
  }

  /** Supporter lists with one Merkle root are equal up to timestamps and order, or the hash breaks. */
  lemma QuorumRootBinds(c: Crypto, xs: seq<Signed>, ys: seq<Signed>)
    requires Supporters(c, xs) && Supporters(c, ys) && MerkleRoot(c.H, xs) == MerkleRoot(c.H, ys)
    ensures match RootBreak(c.H, xs, ys)
            case Some(e) => Breaks(c.H, e)
            case None =>
              && |xs| == |ys|
              && forall i | 0 <= i < |Sorted(xs)| ::
                   i < |Sorted(ys)| && Untimed(Sorted(xs)[i]) == Untimed(Sorted(ys)[i])
  {
    hide LeafBytes, Top, Sorted, LongDistinct, Verifies, DistinctKeys, ListBreak, TopInput, RootOfList;
    SortedLength(xs);
    SortedLength(ys);
    SortedSupporters(c, xs);
    SortedSupporters(c, ys);
    var (ls, rs) := (LeafList(Sorted(xs)), LeafList(Sorted(ys)));
    if xs == [] && ys != [] {
      TopInputHashes(c.H, rs);
    } else if ys == [] && xs != [] {
      TopInputHashes(c.H, ls);
    } else if xs != [] {
      ListBinding(c.H, ls, rs);
      if ls == rs {
        forall i | 0 <= i < |Sorted(xs)| ensures i < |Sorted(ys)| && Untimed(Sorted(xs)[i]) == Untimed(Sorted(ys)[i]) {
          assert ls[i] == rs[i];
          LeafInjective(Sorted(xs)[i], Sorted(ys)[i]);
        }
      }
    }
  }

  // ----- equivocation

  datatype EquivocationProof = EquivocationProof(chain: Str, height: nat, validator: Str, first: Signed, second: Signed)

  predicate VerifyEquivocation(c: Crypto, p: EquivocationProof) {
    && p.first.validator == p.validator == p.second.validator
    && p.first.chain == p.chain == p.second.chain
    && p.first.height == p.height == p.second.height
    && p.first.stateRoot != p.second.stateRoot
    && Verifies(c, p.first) && Verifies(c, p.second)
  }
}
