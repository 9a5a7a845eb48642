/**
 Cross-chain proofs (`cross_chain/verifier.rs`) and accountable safety: two accepted proofs with
 different roots for one chain and height expose a third of the validators as equivocators.
 */
module Verifier {
  import opened Bytes
  import opened Bits
  import opened Smt
  import opened SmtBinding
  import opened Order
  import opened Attestation
  import Consensus

  /** `rootBytes` is the hex-decoded `sourceRoot`; `objectData` is the canonical JSON of the object. */
  datatype Proof = Proof(sourceChain: Str, sourceHeight: nat, sourceRoot: Str, rootBytes: Option<Bytes>, objectId: Str,
                         objectData: Bytes, path: seq<ProofNode>, attestations: seq<Signed>)

  /** Two thirds of `n`, rounded up. */
  function Required(n: nat): nat {
    (2 * n + 2) / 3
  }

  /** The known validators whose first attestation in the list carries `root`. */
  ghost function Voters(validators: set<Str>, atts: seq<Signed>, root: Str): set<Str> {
    set v | v in validators && Consensus.FirstBy(atts, v).Some? && Consensus.FirstBy(atts, v).value.stateRoot == root
  }

  /** Quorum: at least two thirds of all validators stand behind the proof's root. */
  ghost predicate HasQuorum(validators: set<Str>, p: Proof) {
    validators != {} && |Voters(validators, p.attestations, p.sourceRoot)| >= Required(|validators|)
  }

  predicate MerkleHolds(H: Hash, p: Proof) {
    p.rootBytes.Some? && |p.rootBytes.value| == 32 &&
    Accepts(H, p.rootBytes.value, H(p.objectId), H(p.objectData), p.path)
  }

  predicate SignaturesHold(c: Crypto, p: Proof) {
    p.attestations != [] &&
    forall i | 0 <= i < |p.attestations| ::
      p.attestations[i].stateRoot == p.sourceRoot && p.attestations[i].height == p.sourceHeight &&
      p.attestations[i].chain == p.sourceChain && Verifies(c, p.attestations[i])
  }

  ghost predicate ValidProof(c: Crypto, validators: set<Str>, p: Proof) {
    HasQuorum(validators, p) && MerkleHolds(c.H, p) && SignaturesHold(c, p)
  }

  // ----- the quorum loop

  lemma VotersSnoc(validators: set<Str>, atts: seq<Signed>, a: Signed, root: Str)
    ensures Voters(validators, atts + [a], root) ==
            Voters(validators, atts, root) +
            (if a.validator in validators && Consensus.FirstBy(atts, a.validator).None? && a.stateRoot == root
             then {a.validator} else {})
  {
    hide Consensus.FirstBy;
    forall v | v in validators
      ensures v in Voters(validators, atts + [a], root) <==>
              v in Voters(validators, atts, root) ||
              (v == a.validator && Consensus.FirstBy(atts, v).None? && a.stateRoot == root)
    {
      Consensus.FirstByAppend(atts, a, v);
    }
  }

  /** Root counts agree with the voter sets. */
  ghost predicate Counts(validators: set<Str>, atts: seq<Signed>, counts: map<Str, nat>) {
    forall root: Str :: CountedAt(validators, atts, counts, root)
  }

  ghost predicate CountedAt(validators: set<Str>, atts: seq<Signed>, counts: map<Str, nat>, root: Str) {
    var voters := Voters(validators, atts, root);
    (root in counts <==> voters != {}) && (root in counts ==> counts[root] == |voters|)
  }

  ghost predicate SeenIs(validators: set<Str>, atts: seq<Signed>, seen: set<Str>) {
    forall v :: v in seen <==> v in validators && Consensus.FirstBy(atts, v).Some?
  }

  method CountVotes(validators: set<Str>, atts: seq<Signed>) returns (counts: map<Str, nat>)
    ensures Counts(validators, atts, counts)
  {
    hide Consensus.FirstBy, Voters, CountedAt;
    var seen: set<Str> := {};
    counts := map[];
    NoVotes(validators);
    for i := 0 to |atts|
      invariant Counts(validators, atts[..i], counts)
      invariant SeenIs(validators, atts[..i], seen)
    {
      var a := atts[i];
      assert atts[..i + 1] == atts[..i] + [a];
      forall v
        ensures Consensus.FirstBy(atts[..i + 1], v).Some? <==> Consensus.FirstBy(atts[..i], v).Some? || v == a.validator
      {
        Consensus.FirstByAppend(atts[..i], a, v);
      }
      CountOne(validators, atts[..i], a, counts);
      if a.validator !in validators { continue; }
      if a.validator in seen { continue; }
      seen := seen + {a.validator};
      counts := counts[a.stateRoot := (if a.stateRoot in counts then counts[a.stateRoot] else 0) + 1];
    }
    assert atts[..|atts|] == atts;
  }

  lemma NoVotes(validators: set<Str>)
    ensures Counts(validators, [], map[]) && SeenIs(validators, [], {})
  {
  }

  lemma CountOne(validators: set<Str>, atts: seq<Signed>, a: Signed, counts: map<Str, nat>)
    requires Counts(validators, atts, counts)
    ensures Counts(validators, atts + [a], CountsAfter(validators, atts, a, counts))
  {
    hide Consensus.FirstBy, CountedAt, CountsAfter;
    forall root: Str ensures CountedAt(validators, atts + [a], CountsAfter(validators, atts, a, counts), root) {
      CountRoot(validators, atts, a, counts, root);
    }
  }

  /** The first vote of a known validator raises its root's count by one. */
  ghost function CountsAfter(validators: set<Str>, atts: seq<Signed>, a: Signed, counts: map<Str, nat>): map<Str, nat> {
    var root := a.stateRoot;
    if a.validator in validators && Consensus.FirstBy(atts, a.validator).None?
    then counts[root := (if root in counts then counts[root] else 0) + 1] else counts
  }

  lemma CountRoot(validators: set<Str>, atts: seq<Signed>, a: Signed, counts: map<Str, nat>, root: Str)
    requires CountedAt(validators, atts, counts, root)
    ensures CountedAt(validators, atts + [a], CountsAfter(validators, atts, a, counts), root)
  {
    hide Consensus.FirstBy, Voters;
    VotersSnoc(validators, atts, a, root);
    NotYet(validators, atts, a.validator, root);
  }

  lemma NotYet(validators: set<Str>, atts: seq<Signed>, v: Str, root: Str)
    ensures Consensus.FirstBy(atts, v).None? ==> v !in Voters(validators, atts, root)
  {
    hide Consensus.FirstBy;
  }

  /** The largest count, ties to the greatest root, in any iteration order. */
  method MaxCount(counts: map<Str, nat>) returns (root: Str)
    requires counts != map[]
    ensures root in counts && forall r | r in counts :: counts[r] <= counts[root]
  {
    var rest := counts.Keys;
    assert rest != {} by { assert |counts| != 0; }
    root :| root in rest;
    rest := rest - {root};
    while rest != {}
      invariant rest <= counts.Keys && root in counts
      invariant forall r | r in counts && r !in rest :: counts[r] <= counts[root]
      decreases rest
    {
      var r :| r in rest;
      rest := rest - {r};
      if counts[root] < counts[r] || (counts[root] == counts[r] && LexLe(root, r)) {
        root := r;
      }
    }
  }

  /** Two roots cannot both have two thirds. */
  lemma QuorumIsMax(validators: set<Str>, atts: seq<Signed>, p: Str, q: Str)
    requires p != q
    ensures |Voters(validators, atts, p)| + |Voters(validators, atts, q)| <= |validators|
  {
    hide Consensus.FirstBy;
    var (a, b) := (Voters(validators, atts, p), Voters(validators, atts, q));
    assert a !! b;
    assert |a + b| == |a| + |b|;
    Consensus.Subset(a + b, validators);
  }

  /** The loop decides exactly the two-thirds condition; the tie-break never matters. */
  method VerifyQuorum(validators: set<Str>, p: Proof) returns (ok: bool)
    ensures ok == HasQuorum(validators, p)
  {
    hide Voters;
    var n := |validators|;
    if p.attestations == [] {
      NoVotersOfNone(validators, p.sourceRoot);
      return false;
    }
    if n == 0 { return false; }
    var counts := CountVotes(validators, p.attestations);
    assert CountedAt(validators, p.attestations, counts, p.sourceRoot);
    if counts == map[] {
      return false;
    }
    var root := MaxCount(counts);
    assert CountedAt(validators, p.attestations, counts, root);
    if root != p.sourceRoot {
      QuorumIsMax(validators, p.attestations, root, p.sourceRoot);
      return false;
    }
    return counts[root] >= (n * 2 + 2) / 3;
  }

  lemma NoVotersOfNone(validators: set<Str>, root: Str)
    ensures Voters(validators, [], root) == {}
  {
  }

  method VerifyProof(c: Crypto, validators: set<Str>, p: Proof) returns (valid: bool)
    ensures valid == ValidProof(c, validators, p)
  {
    hide HasQuorum, Verifies;
    var quorum := VerifyQuorum(validators, p);
    if !quorum { return false; }
    if p.rootBytes.None? || |p.rootBytes.value| != 32 { return false; }
    var merkle := VerifyProofStatic(c.H, p.rootBytes.value, c.H(p.objectId), c.H(p.objectData), p.path);
    if !merkle { return false; }
    if p.attestations == [] { return false; }
    for i := 0 to |p.attestations|
      invariant forall j | 0 <= j < i ::
                  p.attestations[j].stateRoot == p.sourceRoot && p.attestations[j].height == p.sourceHeight &&
                  p.attestations[j].chain == p.sourceChain && Verifies(c, p.attestations[j])
    {
      var a := p.attestations[i];
      if a.stateRoot != p.sourceRoot || a.height != p.sourceHeight || a.chain != p.sourceChain { return false; }
      if !Verifies(c, a) { return false; }
    }
    return true;
  }

  // ----- what a valid proof shows

  /** `Required` is the least number of votes that is at least two thirds. */
  lemma RequiredIsTwoThirds(n: nat, votes: nat)
    ensures votes >= Required(n) <==> 3 * votes >= 2 * n
  {
  }

  /** If all but a third of the validators first attest the proof's root, there is a quorum; no unanimity is needed. */
  lemma MissingThird(validators: set<Str>, p: Proof, missing: set<Str>)
    requires validators != {} && missing <= validators && 3 * |missing| <= |validators|
    requires forall v | v in validators - missing ::
               Consensus.FirstBy(p.attestations, v).Some? &&
               Consensus.FirstBy(p.attestations, v).value.stateRoot == p.sourceRoot
    ensures HasQuorum(validators, p)
  {
    hide Consensus.FirstBy;
    assert |validators - missing| == |validators| - |missing|;
    Consensus.Subset(validators - missing, Voters(validators, p.attestations, p.sourceRoot));
  }

  /** The validators whose signature on the proof's chain, height and root is among its attestations. */
  ghost function Signers(c: Crypto, validators: set<Str>, p: Proof): set<Str> {
    set v | v in validators && exists i :: 0 <= i < |p.attestations| && SignedRoot(c, v, p, p.attestations[i])
  }

  predicate SignedRoot(c: Crypto, v: Str, p: Proof, a: Signed) {
    c.schnorr(v, c.H(Payload(p.sourceChain, p.sourceHeight, a.blockHash, p.sourceRoot)), a.signature)
  }

  /** Behind a valid proof are the signatures of two thirds of the validators on its own chain, height and root. */
  lemma ValidMeansSigned(c: Crypto, validators: set<Str>, p: Proof)
    requires ValidProof(c, validators, p)
    ensures validators != {} && 3 * |Signers(c, validators, p)| >= 2 * |validators|
  {
    hide Consensus.FirstBy, MerkleHolds, Payload;
    var voters := Voters(validators, p.attestations, p.sourceRoot);
    forall v | v in voters ensures v in Signers(c, validators, p) {
      var a := Consensus.FirstBy(p.attestations, v).value;
      assert a in p.attestations && a.validator == v;
      var i :| 0 <= i < |p.attestations| && p.attestations[i] == a;
      assert SignedRoot(c, v, p, p.attestations[i]);
    }
    Consensus.Subset(voters, Signers(c, validators, p));
  }

  /**
   A valid proof whose root is that of a tree is about a leaf of that tree: the object's data hash is stored under the
   object's key and the path is the honest one, or the walk down the tree computes a break of the hash.
   */
  lemma ValidMeansStored(c: Crypto, validators: set<Str>, p: Proof, leaves: Leaves)
    requires ValidProof(c, validators, p) && p.rootBytes == Some(TreeRoot(c.H, leaves))
    ensures Decodes(p.path)
    ensures match Judge(c.H, leaves, c.H(p.objectId), c.H(p.objectData), p.path, 0, ZERO)
            case Broken(e) => Breaks(c.H, e)
            case Member =>
              LeafOf(leaves, c.H(p.objectId)) == Some(c.H(p.objectData)) && |p.path| == TREE_DEPTH &&
              SameSteps(p.path, HonestPath(c.H, leaves, c.H(p.objectId), TREE_DEPTH))
  {
    hide HasQuorum, SignaturesHold, Judge, NodeAt, Climb, HonestPath;
    ProofSound(c.H, leaves, c.H(p.objectId), c.H(p.objectData), p.path);
  }

  /** And the honest path of a stored leaf, with a quorum and its signatures, is a valid proof. */
  lemma StoredIsValid(c: Crypto, validators: set<Str>, p: Proof, leaves: Leaves)
    requires HasQuorum(validators, p) && SignaturesHold(c, p)
    requires p.rootBytes == Some(TreeRoot(c.H, leaves))
    requires LeafOf(leaves, c.H(p.objectId)) == Some(c.H(p.objectData))
    requires p.path == HonestPath(c.H, leaves, c.H(p.objectId), TREE_DEPTH)
    ensures ValidProof(c, validators, p)
  {
    hide HasQuorum, SignaturesHold, NodeAt, Climb, HonestPath, HashLeaf, PathPrefix;
    HonestClimb(c.H, leaves, c.H(p.objectId), TREE_DEPTH);
    EndPrefixes(c.H(p.objectId));
  }

  // ----- accountable safety

  /** The validators behind both proofs. */
  ghost function Guilty(validators: set<Str>, p: Proof, q: Proof): set<Str> {
    Voters(validators, p.attestations, p.sourceRoot) * Voters(validators, q.attestations, q.sourceRoot)
  }

  lemma Overlap(validators: set<Str>, a: set<Str>, b: set<Str>)
    requires a <= validators && b <= validators && |a| >= Required(|validators|) && |b| >= Required(|validators|)
    ensures |a * b| >= (|validators| + 2) / 3
  {
    assert |a + b| + |a * b| == |a| + |b| by {
      assert a + b == a + (b - a) && b == (b - a) + a * b;
      assert |b| == |b - a| + |a * b|;
      assert |a + b| == |a| + |b - a|;
    }
    Consensus.Subset(a + b, validators);
  }

  /** Conflicting accepted proofs: at least a third of the validators each yield a verifying equivocation proof. */
  lemma AccountableSafety(c: Crypto, validators: set<Str>, p: Proof, q: Proof)
    requires ValidProof(c, validators, p) && ValidProof(c, validators, q)
    requires p.sourceChain == q.sourceChain && p.sourceHeight == q.sourceHeight && p.sourceRoot != q.sourceRoot
    ensures Guilty(validators, p, q) <= validators && |Guilty(validators, p, q)| >= (|validators| + 2) / 3
    ensures forall v | v in Guilty(validators, p, q) ::
              && Consensus.FirstBy(p.attestations, v).Some? && Consensus.FirstBy(q.attestations, v).Some?
              && VerifyEquivocation(c, EquivocationProof(p.sourceChain, p.sourceHeight, v,
                   Consensus.FirstBy(p.attestations, v).value, Consensus.FirstBy(q.attestations, v).value))
              && SignedRoot(c, v, p, Consensus.FirstBy(p.attestations, v).value)
              && SignedRoot(c, v, q, Consensus.FirstBy(q.attestations, v).value)
  {
    hide Consensus.FirstBy, MerkleHolds, Payload;
    Overlap(validators, Voters(validators, p.attestations, p.sourceRoot),
            Voters(validators, q.attestations, q.sourceRoot));
    forall v | v in Guilty(validators, p, q)
      ensures SignedRoot(c, v, p, Consensus.FirstBy(p.attestations, v).value)
      ensures SignedRoot(c, v, q, Consensus.FirstBy(q.attestations, v).value)
      ensures VerifyEquivocation(c, EquivocationProof(p.sourceChain, p.sourceHeight, v,
                Consensus.FirstBy(p.attestations, v).value, Consensus.FirstBy(q.attestations, v).value))
    {
      var a, b := Consensus.FirstBy(p.attestations, v).value, Consensus.FirstBy(q.attestations, v).value;
      assert a in p.attestations && b in q.attestations;
    }
  }
}
