/**
 What a root commits to. An accepted proof either shows a stored leaf or hands over a concrete
 break of the hash function, and so do two different leaf maps with one root. The breaks are
 computed from the data at hand, not merely claimed to exist.
 */
module SmtBinding {
  import opened Bytes
  import opened Bits
  import opened Smt

  datatype Verdict = Member | Broken(evidence: Evidence)

  /** The bytes hashed last on the way up `path`. */
  function TopPreimage(H: Hash, key: Digest, value: Digest, path: seq<ProofNode>): (top: Bytes)
    requires Decodes(path)
    ensures H(top) == Climb(H, HashLeaf(H, key, value), path)
  {
    if path == [] then LeafPreimage(key, value)
    else
      var node := path[|path| - 1];
      var below := Climb(H, HashLeaf(H, key, value), path[..|path| - 1]);
      if node.position == "left" then NodePreimage(Side(node), below) else NodePreimage(below, Side(node))
  }

  /** Walks an accepted path down the real tree until the two part ways or meet at a leaf. */
  function Judge(H: Hash, leaves: Leaves, key: Digest, value: Digest, path: seq<ProofNode>, level: nat, prefix: Digest):
    Verdict
    requires level <= TREE_DEPTH && Decodes(path)
    decreases TREE_DEPTH - level, |path|
  {
    var top := TopPreimage(H, key, value, path);
    if level == TREE_DEPTH then
      if prefix !in leaves then Broken(ZeroPreimage(top))
      else if path == [] && key == prefix && value == leaves[prefix] then Member
      else Broken(Collision(top, LeafPreimage(prefix, leaves[prefix])))
    else
      var right := FlipBit(prefix, level);
      var inner := NodePreimage(NodeAt(H, leaves, level + 1, prefix), NodeAt(H, leaves, level + 1, right));
      if path == [] || top != inner then Broken(Collision(top, inner))
      else
        var rest := path[..|path| - 1];
        Judge(H, leaves, key, value, rest, level + 1, if path[|path| - 1].position == "left" then right else prefix)
  }

  /** Same siblings on the same sides; any position other than "left" means right. */
  ghost predicate SameSteps(p: seq<ProofNode>, q: seq<ProofNode>) {
    |p| == |q| &&
    forall i :: 0 <= i < |p| ==>
                  p[i].sibling == q[i].sibling && (p[i].position == "left" <==> q[i].position == "left")
  }

  /** The walk, one subtree at a time. */
  lemma {:induction false} JudgeSound(H: Hash, leaves: Leaves, key: Digest, value: Digest, path: seq<ProofNode>,
                                      level: nat, prefix: Digest)
    requires level <= TREE_DEPTH && IsPrefix(prefix, level)
    requires Decodes(path) && Climb(H, HashLeaf(H, key, value), path) == NodeAt(H, leaves, level, prefix)
    ensures match Judge(H, leaves, key, value, path, level, prefix)
            case Broken(e) => Breaks(H, e)
            case Member =>
              && LeafOf(leaves, key) == Some(value)
              && PathPrefix(key, level) == prefix
              && SameSteps(path, HonestPath(H, leaves, key, TREE_DEPTH - level))
    decreases TREE_DEPTH - level
  {
    hide PathPrefix, FlipBit, BitAt, LeafPreimage, NodePreimage, IsPrefix, Climb, HonestPath, SameSteps, TopPreimage;
    var top := TopPreimage(H, key, value, path);
    if level == TREE_DEPTH {
      HonestEnd(H, leaves, key);
      JudgeLeaf(H, leaves, key, value, path, prefix);
    } else {
      var right := FlipBit(prefix, level);
      var inner := NodePreimage(NodeAt(H, leaves, level + 1, prefix), NodeAt(H, leaves, level + 1, right));
      if path == [] {
        EmptyPathTop(H, key, value, inner, NodeAt(H, leaves, level + 1, prefix), NodeAt(H, leaves, level + 1, right));
      } else if top == inner {
        var last, rest := path[|path| - 1], path[..|path| - 1];
        var child := if last.position == "left" then right else prefix;
        ChildPrefixes(prefix, level);
        TopStep(H, key, value, path, NodeAt(H, leaves, level + 1, prefix), NodeAt(H, leaves, level + 1, right));
        JudgeSound(H, leaves, key, value, rest, level + 1, child);
        if Judge(H, leaves, key, value, path, level, prefix).Member? {
          StepIsHonest(H, leaves, key, path, level, prefix, child);
        }
      }
    }
  }

  lemma JudgeLeaf(H: Hash, leaves: Leaves, key: Digest, value: Digest, path: seq<ProofNode>, prefix: Digest)
    requires Decodes(path) && Climb(H, HashLeaf(H, key, value), path) == LeafAt(H, leaves, prefix)
    ensures match Judge(H, leaves, key, value, path, TREE_DEPTH, prefix)
            case Broken(e) => Breaks(H, e)
            case Member =>
              LeafOf(leaves, key) == Some(value) && prefix == key == PathPrefix(key, TREE_DEPTH) && path == []
  {
    if prefix in leaves {
      LeafPreimageInjective(key, value, prefix, leaves[prefix]);
      if path != [] {
        var node := path[|path| - 1];
        var below := Climb(H, HashLeaf(H, key, value), path[..|path| - 1]);
        TagsDiffer(Side(node), below, prefix, leaves[prefix]);
        TagsDiffer(below, Side(node), prefix, leaves[prefix]);
      }
    }
  }

  lemma HonestEnd(H: Hash, leaves: Leaves, key: Digest)
    ensures SameSteps([], HonestPath(H, leaves, key, 0))
  {
  }

  lemma EmptyPathTop(H: Hash, key: Digest, value: Digest, inner: Bytes, l: Digest, r: Digest)
    requires inner == NodePreimage(l, r)
    ensures TopPreimage(H, key, value, []) != inner
  {
    TagsDiffer(l, r, key, value);
  }

  /** Equal top preimages have equal parts. */
  lemma TopStep(H: Hash, key: Digest, value: Digest, path: seq<ProofNode>, l: Digest, r: Digest)
    requires Decodes(path) && path != []
    requires TopPreimage(H, key, value, path) == NodePreimage(l, r)
    ensures var last := path[|path| - 1];
            var below := Climb(H, HashLeaf(H, key, value), path[..|path| - 1]);
            if last.position == "left" then Side(last) == l && below == r else below == l && Side(last) == r
  {
    var last := path[|path| - 1];
    var below := Climb(H, HashLeaf(H, key, value), path[..|path| - 1]);
    NodePreimageInjective(Side(last), below, l, r);
    NodePreimageInjective(below, Side(last), l, r);
  }

  lemma StepIsHonest(H: Hash, leaves: Leaves, key: Digest, path: seq<ProofNode>, level: nat, prefix: Digest,
                     child: Digest)
    requires level < TREE_DEPTH && IsPrefix(prefix, level)
    requires Decodes(path) && path != []
    requires var left := path[|path| - 1].position == "left"; var right := FlipBit(prefix, level);
             && child == PathPrefix(key, level + 1) == (if left then right else prefix)
             && Side(path[|path| - 1]) == NodeAt(H, leaves, level + 1, if left then prefix else right)
    requires SameSteps(path[..|path| - 1], HonestPath(H, leaves, key, TREE_DEPTH - (level + 1)))
    ensures PathPrefix(key, level) == prefix
    ensures SameSteps(path, HonestPath(H, leaves, key, TREE_DEPTH - level))
  {
    hide PathPrefix, FlipBit, BitAt, NodeAt;
    ChildPrefixes(prefix, level);
    PathPrefixNested(key, level, level + 1);
    PathPrefixBit(key, level + 1, level);
    FlipTwice(prefix, level);
  }

  /** Any accepted proof against a tree's root shows a stored leaf by the one honest path, or breaks the hash. */
  lemma ProofSound(H: Hash, leaves: Leaves, key: Digest, value: Digest, path: seq<ProofNode>)
    requires Accepts(H, TreeRoot(H, leaves), key, value, path)
    ensures match Judge(H, leaves, key, value, path, 0, ZERO)
            case Broken(e) => Breaks(H, e)
            case Member =>
              LeafOf(leaves, key) == Some(value) && |path| == TREE_DEPTH &&
              SameSteps(path, HonestPath(H, leaves, key, TREE_DEPTH))
  {
    hide PathPrefix, NodeAt, Judge;
    EndPrefixes(ZERO);
    JudgeSound(H, leaves, key, value, path, 0, ZERO);
  }

  /** Follows the path of a key on which two maps differ to the place where their hashes meet. */
  function Part(H: Hash, a: Leaves, b: Leaves, key: Digest, level: nat): Evidence
    requires level <= TREE_DEPTH
    decreases TREE_DEPTH - level, |a|
  {
    if level == TREE_DEPTH then
      if key !in a then ZeroPreimage(if key in b then LeafPreimage(key, b[key]) else [])
      else if key !in b then ZeroPreimage(LeafPreimage(key, a[key]))
      else Collision(LeafPreimage(key, a[key]), LeafPreimage(key, b[key]))
    else
      var x := NodeInput(H, a, PathPrefix(key, level), level);
      var y := NodeInput(H, b, PathPrefix(key, level), level);
      if x != y then Collision(x, y) else Part(H, a, b, key, level + 1)
  }

  function NodeInput(H: Hash, leaves: Leaves, prefix: Digest, level: nat): (x: Bytes)
    requires level < TREE_DEPTH
    ensures H(x) == NodeAt(H, leaves, level, prefix)
  {
    NodePreimage(NodeAt(H, leaves, level + 1, prefix), NodeAt(H, leaves, level + 1, FlipBit(prefix, level)))
  }

  lemma {:induction false} PartBreaks(H: Hash, a: Leaves, b: Leaves, key: Digest, level: nat)
    requires level <= TREE_DEPTH && LeafOf(a, key) != LeafOf(b, key)
    requires NodeAt(H, a, level, PathPrefix(key, level)) == NodeAt(H, b, level, PathPrefix(key, level))
    ensures Breaks(H, Part(H, a, b, key, level))
    decreases TREE_DEPTH - level
  {
    hide PathPrefix, FlipBit, BitAt, LeafPreimage, NodePreimage;
    if level == TREE_DEPTH {
      EndPrefixes(key);
      if key in a && key in b { LeafPreimageInjective(key, a[key], key, b[key]); }
    } else {
      var p := PathPrefix(key, level);
      var q := FlipBit(p, level);
      if NodeInput(H, a, p, level) == NodeInput(H, b, p, level) {
        NodePreimageInjective(NodeAt(H, a, level + 1, p), NodeAt(H, a, level + 1, q),
                              NodeAt(H, b, level + 1, p), NodeAt(H, b, level + 1, q));
        PathPrefixStep(key, level);
        PartBreaks(H, a, b, key, level + 1);
      }
    }
  }

  /** Equal roots, equal maps: a key that two maps disagree on gives a break of the hash. */
  lemma RootBindsLeaves(H: Hash, a: Leaves, b: Leaves, key: Digest)
    requires TreeRoot(H, a) == TreeRoot(H, b) && LeafOf(a, key) != LeafOf(b, key)
    ensures Breaks(H, Part(H, a, b, key, 0))
  {
    hide PathPrefix, NodeAt, Part;
    EndPrefixes(key);
    PartBreaks(H, a, b, key, 0);
  }

  // ----- update histories

  /** The leaves after a history of updates to an empty tree. */
  function Replay(updates: seq<(Digest, Digest)>): Leaves {
    if updates == [] then map[]
    else Put(Replay(updates[..|updates| - 1]), updates[|updates| - 1].0, updates[|updates| - 1].1)
  }

  /** The last value written to a key; a zero value counts as a deletion. */
  function LastWrite(updates: seq<(Digest, Digest)>, key: Digest): Option<Digest> {
    if updates == [] then None
    else
      var (k, v) := updates[|updates| - 1];
      if k != key then LastWrite(updates[..|updates| - 1], key) else if v == ZERO then None else Some(v)
  }

  lemma {:induction false} ReplayKeepsLastWrite(updates: seq<(Digest, Digest)>, key: Digest)
    ensures LeafOf(Replay(updates), key) == LastWrite(updates, key)
  {
    if updates != [] {
      ReplayKeepsLastWrite(updates[..|updates| - 1], key);
    }
  }

  /** Two histories have one root exactly when they leave the same last writes, unless the hash breaks. */
  lemma HistoriesAgree(H: Hash, us: seq<(Digest, Digest)>, vs: seq<(Digest, Digest)>)
    ensures (forall key: Digest :: LastWrite(us, key) == LastWrite(vs, key)) ==>
              TreeRoot(H, Replay(us)) == TreeRoot(H, Replay(vs))
    ensures forall key: Digest ::
              TreeRoot(H, Replay(us)) == TreeRoot(H, Replay(vs)) && LastWrite(us, key) != LastWrite(vs, key) ==>
                Breaks(H, Part(H, Replay(us), Replay(vs), key, 0))
  {
    hide NodeAt, Part, LastWrite, Replay;
    var a, b := Replay(us), Replay(vs);
    forall key: Digest
      ensures LeafOf(a, key) == LastWrite(us, key) && LeafOf(b, key) == LastWrite(vs, key)
    {
      ReplayKeepsLastWrite(us, key);
      ReplayKeepsLastWrite(vs, key);
    }
    if forall key: Digest :: LastWrite(us, key) == LastWrite(vs, key) {
      SameLeaves(a, b);
    }
    forall key: Digest | TreeRoot(H, a) == TreeRoot(H, b) && LastWrite(us, key) != LastWrite(vs, key)
      ensures Breaks(H, Part(H, a, b, key, 0))
    {
      RootBindsLeaves(H, a, b, key);
    }
  }

  /** The tree object reaches exactly the replayed leaves, whatever the order of writes. */
  method BuildTree(H: Hash, updates: seq<(Digest, Digest)>) returns (tree: SparseMerkleTree)
    ensures fresh(tree) && tree.Valid() && tree.H == H && tree.leaves == Replay(updates)
  {
    tree := new SparseMerkleTree(H);
    for i := 0 to |updates|
      invariant fresh(tree) && tree.Valid() && tree.H == H && tree.leaves == Replay(updates[..i])
    {
      assert updates[..i + 1][..i] == updates[..i];
      tree.Update(updates[i].0, updates[i].1);
    }
    assert updates[..|updates|] == updates;
  }
}
