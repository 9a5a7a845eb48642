/**
 The fixed-depth sparse Merkle tree of `storage/smt.rs`: an incremental tree that stores only
 non-default nodes, proved against the plain recursive hash of a full 256-level tree.
 */
module Smt {
  import opened Bytes
  import opened Bits

  // ----- hashing

  const NODE_TAG: Bytes := [83, 77, 84, 95, 78, 79, 68, 69]  // "SMT_NODE"
  const LEAF_TAG: Bytes := [83, 77, 84, 95, 76, 69, 65, 70]  // "SMT_LEAF"

  function NodePreimage(left: Digest, right: Digest): Bytes {
    NODE_TAG + left + right
  }

  function LeafPreimage(key: Digest, value: Digest): Bytes {
    LEAF_TAG + key + value
  }

  function HashNode(H: Hash, left: Digest, right: Digest): Digest {
    H(NodePreimage(left, right))
  }

  function HashLeaf(H: Hash, key: Digest, value: Digest): Digest {
    H(LeafPreimage(key, value))
  }

  lemma NodePreimageInjective(a: Digest, b: Digest, c: Digest, d: Digest)
    ensures NodePreimage(a, b) == NodePreimage(c, d) ==> a == c && b == d
  {
    assert NodePreimage(a, b)[8..40] == a && NodePreimage(a, b)[40..] == b;
    assert NodePreimage(c, d)[8..40] == c && NodePreimage(c, d)[40..] == d;
  }

  lemma LeafPreimageInjective(a: Digest, b: Digest, c: Digest, d: Digest)
    ensures LeafPreimage(a, b) == LeafPreimage(c, d) ==> a == c && b == d
  {
    assert LeafPreimage(a, b)[8..40] == a && LeafPreimage(a, b)[40..] == b;
    assert LeafPreimage(c, d)[8..40] == c && LeafPreimage(c, d)[40..] == d;
  }

  lemma TagsDiffer(a: Digest, b: Digest, c: Digest, d: Digest)
    ensures NodePreimage(a, b) != LeafPreimage(c, d)
  {
    assert NodePreimage(a, b)[4] == 78 && LeafPreimage(c, d)[4] == 76;
  }

  // ----- the full tree

  type Leaves = map<Digest, Digest>

  function LeafOf(leaves: Leaves, key: Digest): Option<Digest> {
    if key in leaves then Some(leaves[key]) else None
  }

  lemma SameLeaves(a: Leaves, b: Leaves)
    requires forall key: Digest :: LeafOf(a, key) == LeafOf(b, key)
    ensures a == b
  {
    assert forall key: Digest :: key in a <==> LeafOf(a, key).Some?;
    assert forall key: Digest :: key in b <==> LeafOf(b, key).Some?;
    assert forall key: Digest :: key in a ==> LeafOf(a, key).value == LeafOf(b, key).value;
  }

  function LeafAt(H: Hash, leaves: Leaves, key: Digest): Digest {
    match LeafOf(leaves, key) case Some(value) => HashLeaf(H, key, value) case None => ZERO
  }

  /** The hash of the subtree at `prefix`, `level` steps below the root, of the full tree over `leaves`. */
  function NodeAt(H: Hash, leaves: Leaves, level: nat, prefix: Digest): Digest
    requires level <= TREE_DEPTH
    decreases TREE_DEPTH - level, |leaves|
  {
    if level == TREE_DEPTH then LeafAt(H, leaves, prefix)
    else HashNode(H, NodeAt(H, leaves, level + 1, prefix), NodeAt(H, leaves, level + 1, FlipBit(prefix, level)))
  }

  function TreeRoot(H: Hash, leaves: Leaves): Digest {
    NodeAt(H, leaves, 0, ZERO)
  }

  /** The hash of an empty subtree of the given height. */
  function EmptyHash(H: Hash, height: nat): Digest
    decreases height, |H([])|
  {
    if height == 0 then ZERO else HashNode(H, EmptyHash(H, height - 1), EmptyHash(H, height - 1))
  }

  lemma {:induction false} EmptyTree(H: Hash, level: nat, prefix: Digest)
    requires level <= TREE_DEPTH
    ensures NodeAt(H, map[], level, prefix) == EmptyHash(H, TREE_DEPTH - level)
    decreases TREE_DEPTH - level
  {
    hide FlipBit, HashNode;
    if level < TREE_DEPTH {
      EmptyTree(H, level + 1, prefix);
      EmptyTree(H, level + 1, FlipBit(prefix, level));
    }
  }

  ghost predicate AgreeOff(before: Leaves, after: Leaves, key: Digest) {
    forall k: Digest | k != key :: LeafOf(before, k) == LeafOf(after, k)
  }

  /** Changing one leaf changes only the subtrees on that leaf's path. */
  lemma {:induction false} OffPath(H: Hash, before: Leaves, after: Leaves, key: Digest, level: nat, prefix: Digest)
    requires level <= TREE_DEPTH && IsPrefix(prefix, level)
    requires PathPrefix(key, level) != prefix
    requires AgreeOff(before, after, key)
    ensures NodeAt(H, before, level, prefix) == NodeAt(H, after, level, prefix)
    decreases TREE_DEPTH - level
  {
    hide PathPrefix, FlipBit, HashNode;
    if level < TREE_DEPTH {
      ChildPrefixes(prefix, level);
      PathPrefixNested(key, level, level + 1);
      OffPath(H, before, after, key, level + 1, prefix);
      OffPath(H, before, after, key, level + 1, FlipBit(prefix, level));
    }
  }

  /** The two children of a node on the path of `key`, told apart by the next bit of `key`. */
  lemma OnPath(H: Hash, leaves: Leaves, key: Digest, level: nat)
    requires level < TREE_DEPTH
    ensures var down := NodeAt(H, leaves, level + 1, PathPrefix(key, level + 1));
            var side := SiblingAt(H, leaves, key, level);
            NodeAt(H, leaves, level, PathPrefix(key, level)) ==
            if BitAt(key, level) == 0 then HashNode(H, down, side) else HashNode(H, side, down)
  {
    hide PathPrefix, FlipBit, HashNode, BitAt;
    PathPrefixStep(key, level);
  }

  /** The hash beside the path of `key`, at level `level + 1`. */
  function SiblingAt(H: Hash, leaves: Leaves, key: Digest, level: nat): Digest
    requires level < TREE_DEPTH
  {
    NodeAt(H, leaves, level + 1, FlipBit(PathPrefix(key, level + 1), level))
  }

  // ----- inclusion proofs

  /** One proof step; `sibling` is the decoded hex string, or `None` when it does not decode. */
  datatype ProofNode = ProofNode(position: string, sibling: Option<Bytes>)

  predicate Decodes(path: seq<ProofNode>) {
    forall i :: 0 <= i < |path| ==> path[i].sibling.Some? && |path[i].sibling.value| == 32
  }

  function Side(node: ProofNode): Digest
    requires node.sibling.Some? && |node.sibling.value| == 32
  {
    node.sibling.value
  }

  function Combine(H: Hash, current: Digest, node: ProofNode): Digest
    requires node.sibling.Some? && |node.sibling.value| == 32
  {
    if node.position == "left" then HashNode(H, Side(node), current) else HashNode(H, current, Side(node))
  }

  /** The hash reached from `start` after all the steps of `path`. */
  function Climb(H: Hash, start: Digest, path: seq<ProofNode>): Digest
    requires Decodes(path)
  {
    if path == [] then start
    else Combine(H, Climb(H, start, path[..|path| - 1]), path[|path| - 1])
  }

  /** What `verify_proof_static` decides. */
  predicate Accepts(H: Hash, root: Digest, key: Digest, value: Digest, path: seq<ProofNode>) {
    Decodes(path) && Climb(H, HashLeaf(H, key, value), path) == root
  }

  method VerifyProofStatic(H: Hash, root: Digest, key: Digest, value: Digest, path: seq<ProofNode>)
    returns (ok: bool)
    ensures ok == Accepts(H, root, key, value, path)
  {
    var current := HashLeaf(H, key, value);
    for i := 0 to |path|
      invariant Decodes(path[..i])
      invariant current == Climb(H, HashLeaf(H, key, value), path[..i])
    {
      if path[i].sibling.None? || |path[i].sibling.value| != 32 {
        return false;
      }
      assert path[..i + 1][..i] == path[..i];
      current := Combine(H, current, path[i]);
    }
    assert path[..|path|] == path;
    return current == root;
  }

  datatype InclusionProof =
    InclusionProof(key: Digest, value: Digest, root: Digest, path: seq<ProofNode>, verified: bool)

  /** The proof that the full tree dictates for `key`: its first `n` siblings, leaf end first. */
  function HonestPath(H: Hash, leaves: Leaves, key: Digest, n: nat): (path: seq<ProofNode>)
    requires n <= TREE_DEPTH
    ensures |path| == n && Decodes(path)
    decreases n, |leaves|
  {
    if n == 0 then []
    else
      var level := TREE_DEPTH - n;
      HonestPath(H, leaves, key, n - 1) +
      [ProofNode(if BitAt(key, level) == 0 then "right" else "left", Some(SiblingAt(H, leaves, key, level)))]
  }

  lemma {:induction false} HonestClimb(H: Hash, leaves: Leaves, key: Digest, n: nat)
    requires n <= TREE_DEPTH && key in leaves
    ensures Climb(H, HashLeaf(H, key, leaves[key]), HonestPath(H, leaves, key, n)) ==
            NodeAt(H, leaves, TREE_DEPTH - n, PathPrefix(key, TREE_DEPTH - n))
  {
    hide PathPrefix, FlipBit, HashNode, BitAt, HashLeaf;
    EndPrefixes(key);
    if n > 0 {
      HonestClimb(H, leaves, key, n - 1);
      OnPath(H, leaves, key, TREE_DEPTH - n);
      var path := HonestPath(H, leaves, key, n);
      assert path[..n - 1] == HonestPath(H, leaves, key, n - 1);
    }
  }

  // ----- the incremental tree

  function Put(leaves: Leaves, key: Digest, value: Digest): Leaves {
    if value == ZERO then leaves - {key} else leaves[key := value]
  }

  /** A stored node, or the default for its level. */
  function Lookup(H: Hash, nodes: map<(nat, Digest), Digest>, level: nat, prefix: Digest): Digest
    requires level <= TREE_DEPTH
  {
    if (level, prefix) in nodes then nodes[(level, prefix)] else EmptyHash(H, TREE_DEPTH - level)
  }

  ghost predicate LevelCorrect(H: Hash, nodes: map<(nat, Digest), Digest>, leaves: Leaves, level: nat)
    requires level < TREE_DEPTH
  {
    forall p: Digest | IsPrefix(p, level) :: Lookup(H, nodes, level, p) == NodeAt(H, leaves, level, p)
  }

  /** Every stored node is at a proper position and differs from the default there. */
  ghost predicate Sparse(H: Hash, nodes: map<(nat, Digest), Digest>) {
    forall k | k in nodes ::
      k.0 < TREE_DEPTH && IsPrefix(k.1, k.0) && nodes[k] != EmptyHash(H, TREE_DEPTH - k.0)
  }

  function PutNode(H: Hash, nodes: map<(nat, Digest), Digest>, level: nat, prefix: Digest, hash: Digest):
    map<(nat, Digest), Digest>
    requires level < TREE_DEPTH
  {
    if hash == EmptyHash(H, TREE_DEPTH - level) then nodes - {(level, prefix)} else nodes[(level, prefix) := hash]
  }

  lemma PutNodeLookup(H: Hash, nodes: map<(nat, Digest), Digest>, level: nat, prefix: Digest, hash: Digest,
                      l: nat, p: Digest)
    requires level < TREE_DEPTH && l < TREE_DEPTH
    ensures Lookup(H, PutNode(H, nodes, level, prefix, hash), l, p) ==
            if (l, p) == (level, prefix) then hash else Lookup(H, nodes, l, p)
  {
  }

  /** The tree halfway through an update: levels from `level` on hold `after`, the others still `before`. */
  ghost predicate Halfway(H: Hash, nodes: map<(nat, Digest), Digest>, before: Leaves, after: Leaves, level: nat) {
    && (forall l: nat | l < level && l < TREE_DEPTH :: LevelCorrect(H, nodes, before, l))
    && (forall l: nat | level <= l < TREE_DEPTH :: LevelCorrect(H, nodes, after, l))
  }

  /** Writing the node of `key` at `level` brings that one level from `before` to `after`. */
  lemma StoreParent(H: Hash, nodes: map<(nat, Digest), Digest>, before: Leaves, after: Leaves, key: Digest, level: nat)
    requires level < TREE_DEPTH && AgreeOff(before, after, key)
    requires Halfway(H, nodes, before, after, level + 1) && Sparse(H, nodes)
    ensures var nodes' := PutNode(H, nodes, level, PathPrefix(key, level),
                                  NodeAt(H, after, level, PathPrefix(key, level)));
            Halfway(H, nodes', before, after, level) && Sparse(H, nodes')
  {
    hide PathPrefix, FlipBit, HashNode, PutNode, Lookup;
    var prefix := PathPrefix(key, level);
    var hash := NodeAt(H, after, level, prefix);
    var nodes' := PutNode(H, nodes, level, prefix, hash);
    PutNodeSparse(H, nodes, key, level, hash);
    forall l: nat | l < TREE_DEPTH
      ensures l < level ==> LevelCorrect(H, nodes', before, l)
      ensures level <= l ==> LevelCorrect(H, nodes', after, l)
    {
      forall p: Digest | IsPrefix(p, l)
        ensures Lookup(H, nodes', l, p) == NodeAt(H, if l < level then before else after, l, p)
      {
        PutNodeLookup(H, nodes, level, prefix, hash, l, p);
        assert LevelCorrect(H, nodes, if l <= level then before else after, l);
        if l == level && p != prefix {
          OffPath(H, before, after, key, level, p);
        }
      }
    }
  }

  lemma PutNodeSparse(H: Hash, nodes: map<(nat, Digest), Digest>, key: Digest, level: nat, hash: Digest)
    requires level < TREE_DEPTH && Sparse(H, nodes)
    ensures Sparse(H, PutNode(H, nodes, level, PathPrefix(key, level), hash))
  {
    hide PathPrefix;
    PathPrefixIsPrefix(key, level);
  }

  class SparseMerkleTree {
    const H: Hash
    var leaves: Leaves
    var nodes: map<(nat, Digest), Digest>
    const emptyHashes: seq<Digest>
    var cachedRoot: Digest
    var dirty: bool

    ghost predicate Defaults() {
      |emptyHashes| == TREE_DEPTH + 1 &&
      forall d: nat :: d <= TREE_DEPTH ==> emptyHashes[d] == EmptyHash(H, d)
    }

    /** Every lookup, with its default, is the hash of the full tree; so is the cached root when clean. */
    ghost predicate Valid()
      reads this
    {
      && Defaults()
      && (forall level: nat | level < TREE_DEPTH :: LevelCorrect(H, nodes, leaves, level))
      && Sparse(H, nodes)
      && (forall k | k in leaves :: leaves[k] != ZERO)
      && (!dirty ==> cachedRoot == TreeRoot(H, leaves))
    }

    constructor (hash: Hash)
      ensures Valid() && H == hash && leaves == map[]
    {
      var current: Digest := ZERO;
      var hashes: seq<Digest> := [current];
      for d := 0 to TREE_DEPTH
        invariant |hashes| == d + 1 && current == EmptyHash(hash, d)
        invariant forall e: nat :: e <= d ==> hashes[e] == EmptyHash(hash, e)
      {
        current := HashNode(hash, current, current);
        hashes := hashes + [current];
      }
      H, emptyHashes := hash, hashes;
      leaves, nodes := map[], map[];
      cachedRoot, dirty := hashes[TREE_DEPTH], false;
      forall level: nat, p: Digest | level <= TREE_DEPTH
        ensures NodeAt(hash, map[], level, p) == EmptyHash(hash, TREE_DEPTH - level)
      {
        EmptyTree(hash, level, p);
      }
    }

    method GetSiblingHash(key: Digest, bitIdx: nat) returns (h: Digest)
      requires bitIdx < TREE_DEPTH && Defaults()
      requires bitIdx + 1 < TREE_DEPTH ==> LevelCorrect(H, nodes, leaves, bitIdx + 1)
      ensures h == SiblingAt(H, leaves, key, bitIdx)
    {
      if bitIdx == TREE_DEPTH - 1 {
        var siblingKey := FlipBit(key, bitIdx);
        h := if siblingKey in leaves then HashLeaf(H, siblingKey, leaves[siblingKey]) else emptyHashes[0];
      } else {
        var siblingPrefix := FlipBit(PathPrefix(key, bitIdx + 1), bitIdx);
        SiblingIsPrefix(key, bitIdx);
        h := if (bitIdx + 1, siblingPrefix) in nodes then nodes[(bitIdx + 1, siblingPrefix)]
             else emptyHashes[TREE_DEPTH - (bitIdx + 1)];
        assert h == Lookup(H, nodes, bitIdx + 1, siblingPrefix);
      }
    }

    /** Insert, overwrite or (for the zero value) delete. */
    method Update(key: Digest, value: Digest)
      requires Valid()
      modifies this
      ensures Valid()
      ensures leaves == Put(old(leaves), key, value)
    {
      hide PathPrefix, FlipBit, HashNode, BitAt, HashLeaf;
      ghost var before := leaves;
      if value == ZERO {
        if key !in leaves {
          assert leaves - {key} == leaves;
          return;
        }
        leaves := leaves - {key};
      } else {
        leaves := leaves[key := value];
      }
      assert AgreeOff(before, leaves, key);
      var current: Digest := if value == ZERO then emptyHashes[0] else HashLeaf(H, key, value);
      EndPrefixes(key);
      var bitIdx := TREE_DEPTH;
      while bitIdx > 0
        invariant 0 <= bitIdx <= TREE_DEPTH
        invariant leaves == Put(before, key, value)
        invariant current == NodeAt(H, leaves, bitIdx, PathPrefix(key, bitIdx))
        invariant Halfway(H, nodes, before, leaves, bitIdx)
        invariant Sparse(H, nodes)
      {
        bitIdx := bitIdx - 1;
        var bit := BitAt(key, bitIdx);
        var sibling := GetSiblingHash(key, bitIdx);
        OnPath(H, leaves, key, bitIdx);
        current := if bit == 0 then HashNode(H, current, sibling) else HashNode(H, sibling, current);

        StoreParent(H, nodes, before, leaves, key, bitIdx);
        var parentPrefix := PathPrefix(key, bitIdx);
        if current == emptyHashes[TREE_DEPTH - bitIdx] {
          nodes := nodes - {(bitIdx, parentPrefix)};
        } else {
          nodes := nodes[(bitIdx, parentPrefix) := current];
        }
      }
      dirty := true;
    }

    method Root() returns (r: Digest)
      requires Valid()
      modifies this`cachedRoot, this`dirty
      ensures Valid() && r == TreeRoot(H, leaves)
    {
      if dirty {
        EndPrefixes(ZERO);
        assert LevelCorrect(H, nodes, leaves, 0) && IsPrefix(ZERO, 0);
        assert Lookup(H, nodes, 0, ZERO) == NodeAt(H, leaves, 0, ZERO);
        cachedRoot := if (0, ZERO) in nodes then nodes[(0, ZERO)] else emptyHashes[TREE_DEPTH];
        dirty := false;
      }
      r := cachedRoot;
    }

    method ComputeRootForKey(key: Digest, value: Digest) returns (r: Digest)
      requires Valid() && key in leaves && leaves[key] == value
      ensures r == TreeRoot(H, leaves)
    {
      hide PathPrefix, FlipBit, HashNode, BitAt;
      EndPrefixes(key);
      r := HashLeaf(H, key, value);
      var bitIdx := TREE_DEPTH;
      while bitIdx > 0
        invariant 0 <= bitIdx <= TREE_DEPTH
        invariant r == NodeAt(H, leaves, bitIdx, PathPrefix(key, bitIdx))
      {
        bitIdx := bitIdx - 1;
        var sibling := GetSiblingHash(key, bitIdx);
        OnPath(H, leaves, key, bitIdx);
        r := if BitAt(key, bitIdx) == 0 then HashNode(H, r, sibling) else HashNode(H, sibling, r);
      }
    }

    /** Every stored key has a proof, it verifies, and it is against the current root. */
    method GetProof(key: Digest) returns (proof: Option<InclusionProof>)
      requires Valid()
      ensures proof.Some? <==> key in leaves
      ensures proof.Some? ==>
                proof.value == InclusionProof(key, leaves[key], TreeRoot(H, leaves),
                                              HonestPath(H, leaves, key, TREE_DEPTH), true)
    {
      hide PathPrefix, FlipBit, HashNode, BitAt, HashLeaf;
      if key !in leaves {
        return None;
      }
      var value := leaves[key];
      var path: seq<ProofNode> := [];
      var bitIdx := TREE_DEPTH;
      while bitIdx > 0
        invariant 0 <= bitIdx <= TREE_DEPTH
        invariant path == HonestPath(H, leaves, key, TREE_DEPTH - bitIdx)
      {
        bitIdx := bitIdx - 1;
        var sibling := GetSiblingHash(key, bitIdx);
        path := path + [ProofNode(if BitAt(key, bitIdx) == 0 then "right" else "left", Some(sibling))];
      }
      var root := ComputeRootForKey(key, value);
      var verified := VerifyProofStatic(H, root, key, value, path);
      HonestClimb(H, leaves, key, TREE_DEPTH);
      EndPrefixes(key);
      return Some(InclusionProof(key, value, root, path, verified));
    }
  }

  lemma SiblingIsPrefix(key: Digest, level: nat)
    requires level < TREE_DEPTH
    ensures IsPrefix(FlipBit(PathPrefix(key, level + 1), level), level + 1)
  {
    PathPrefixStep(key, level);
    PathPrefixIsPrefix(key, level);
    ChildPrefixes(PathPrefix(key, level), level);
  }
}
