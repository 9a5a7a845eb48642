/**
 The consensus manager of `consensus/attestation.rs`: validator registration, one attestation per
 validator and key, equivocation records, quorum detection and the quorum result.
 */
module Consensus {
  import opened Bytes
  import opened Order
  import opened Attestation

  datatype State = State(validators: set<Str>, lists: map<(Str, nat), seq<Signed>>, proofs: seq<EquivocationProof>)

  const INIT: State := State({}, map[], [])

  datatype Event = Register(validator: Str) | Submit(att: Signed)

  function ListAt(s: State, chain: Str, height: nat): seq<Signed> {
    if (chain, height) in s.lists then s.lists[(chain, height)] else []
  }

  function FirstBy(list: seq<Signed>, v: Str): (r: Option<Signed>)
    ensures r.Some? ==> r.value in list && r.value.validator == v
    ensures r.None? ==> forall i | 0 <= i < |list| :: list[i].validator != v
  {
    if list == [] then None
    else if list[0].validator == v then Some(list[0])
    else FirstBy(list[1..], v)
  }

  predicate Accepted(c: Crypto, s: State, a: Signed) {
    Verifies(c, a) && a.validator in s.validators
  }

  function Conflict(first: Signed, second: Signed): EquivocationProof {
    EquivocationProof(second.chain, second.height, second.validator, first, second)
  }

  function Step(c: Crypto, s: State, e: Event): State {
    match e
    case Register(v) => s.(validators := s.validators + {v})
    case Submit(a) =>
      if !Accepted(c, s, a) then s
      else
        match FirstBy(ListAt(s, a.chain, a.height), a.validator)
        case None => s.(lists := s.lists[(a.chain, a.height) := ListAt(s, a.chain, a.height) + [a]])
        case Some(x) => if x.stateRoot == a.stateRoot then s else s.(proofs := s.proofs + [Conflict(x, a)])
  }

  function Run(c: Crypto, events: seq<Event>): State {
    if events == [] then INIT else Step(c, Run(c, events[..|events| - 1]), events[|events| - 1])
  }

  // ----- what every run keeps

  ghost predicate GoodList(c: Crypto, s: State, chain: Str, height: nat) {
    var list := ListAt(s, chain, height);
    && DistinctKeys(list, ValidatorOf)
    && forall i | 0 <= i < |list| :: Accepted(c, s, list[i]) && list[i].chain == chain && list[i].height == height
  }

  /** Lists hold verified attestations of registered validators, one each; recorded conflicts all verify. */
  ghost predicate Sound(c: Crypto, s: State) {
    && (forall chain, height :: GoodList(c, s, chain, height))
    && (forall i | 0 <= i < |s.proofs| :: VerifyEquivocation(c, s.proofs[i]) && s.proofs[i].validator in s.validators)
  }

  lemma StepSound(c: Crypto, s: State, e: Event)
    requires Sound(c, s)
    ensures Sound(c, Step(c, s, e))
  {
    hide Verifies, VerifyEquivocation;
    var s' := Step(c, s, e);
    forall chain, height ensures GoodList(c, s', chain, height) {
      assert GoodList(c, s, chain, height);
    }
    if e.Submit? && Accepted(c, s, e.att) {
      ConflictVerifies(c, s, e.att);
    }
  }

  lemma ConflictVerifies(c: Crypto, s: State, a: Signed)
    requires GoodList(c, s, a.chain, a.height) && Accepted(c, s, a)
    ensures var x := FirstBy(ListAt(s, a.chain, a.height), a.validator);
            x.Some? && x.value.stateRoot != a.stateRoot ==> VerifyEquivocation(c, Conflict(x.value, a))
  {
    hide Verifies;
  }

  lemma {:induction false} RunSound(c: Crypto, events: seq<Event>)
    ensures Sound(c, Run(c, events))
  {
    hide Step;
    if events == [] {
      assert forall chain, height :: ListAt(INIT, chain, height) == [];
    } else {
      RunSound(c, events[..|events| - 1]);
      StepSound(c, Run(c, events[..|events| - 1]), events[|events| - 1]);
    }
  }

  /** Nothing is ever taken back. */
  ghost predicate Grows(s: State, s': State) {
    && s.validators <= s'.validators
    && (forall chain, height :: ListAt(s, chain, height) <= ListAt(s', chain, height))
    && s.proofs <= s'.proofs
  }

  lemma {:induction false} RunGrows(c: Crypto, events: seq<Event>, i: nat)
    requires i <= |events|
    ensures Grows(Run(c, events[..i]), Run(c, events))
    decreases |events|
  {
    if i == |events| {
      assert events[..i] == events;
    } else {
      var init := events[..|events| - 1];
      RunGrows(c, init, i);
      assert init[..i] == events[..i];
      StepGrows(c, Run(c, init), events[|events| - 1]);
    }
  }

  lemma StepGrows(c: Crypto, s: State, e: Event)
    ensures Grows(s, Step(c, s, e))
  {
    hide Verifies;
  }

  // ----- only registered signers are recorded

  /** A validator is registered exactly when the run registered it. */
  lemma {:induction false} RegisteredIff(c: Crypto, events: seq<Event>, v: Str)
    ensures v in Run(c, events).validators <==> Register(v) in events
  {
    hide Verifies;
    if events != [] {
      var init, last := events[..|events| - 1], events[|events| - 1];
      assert events == init + [last];
      RegisteredIff(c, init, v);
    }
  }

  /** What is recorded was registered and signed: the key's own signature on the chain, height, block and root. */
  lemma RecordedIsSigned(c: Crypto, events: seq<Event>, chain: Str, height: nat, i: nat)
    requires i < |ListAt(Run(c, events), chain, height)|
    ensures var a := ListAt(Run(c, events), chain, height)[i];
            && Register(a.validator) in events
            && c.schnorr(a.validator, c.H(Payload(chain, height, a.blockHash, a.stateRoot)), a.signature)
  {
    hide Payload, Run, ListAt;
    RunSound(c, events);
    assert GoodList(c, Run(c, events), chain, height);
    RegisteredIff(c, events, ListAt(Run(c, events), chain, height)[i].validator);
  }

  /** Key `v` has signed at most one root for any chain and height. */
  ghost predicate Honest(c: Crypto, v: Str) {
    forall chain, height, block, root, sig, block', root', sig' |
      Signs(c, v, chain, height, block, root, sig) && Signs(c, v, chain, height, block', root', sig') :: root == root'
  }

  predicate Signs(c: Crypto, v: Str, chain: Str, height: nat, block: Str, root: Str, sig: Str) {
    c.schnorr(v, c.H(Payload(chain, height, block, root)), sig)
  }

  lemma AccusedSigned(c: Crypto, p: EquivocationProof)
    requires VerifyEquivocation(c, p)
    ensures Signs(c, p.validator, p.chain, p.height, p.first.blockHash, p.first.stateRoot, p.first.signature)
    ensures Signs(c, p.validator, p.chain, p.height, p.second.blockHash, p.second.stateRoot, p.second.signature)
    ensures p.first.stateRoot != p.second.stateRoot
  {
    hide Payload;
  }

  /** No run accuses an honest validator, and nobody can make up a proof against it. */
  lemma HonestNeverSlashed(c: Crypto, events: seq<Event>, p: EquivocationProof)
    requires Honest(c, p.validator)
    ensures !VerifyEquivocation(c, p) && p !in Run(c, events).proofs
  {
    hide Payload, Run, Signs, VerifyEquivocation;
    RunSound(c, events);
    if VerifyEquivocation(c, p) { AccusedSigned(c, p); }
  }

  // ----- equivocators are caught

  predicate Names(p: EquivocationProof, v: Str, chain: Str, height: nat) {
    p.validator == v && p.chain == chain && p.height == height
  }

  ghost predicate Caught(s: State, v: Str, chain: Str, height: nat) {
    exists k :: 0 <= k < |s.proofs| && Names(s.proofs[k], v, chain, height)
  }

  /** After an accepted attestation, its root is the recorded one for that validator, or the validator is caught. */
  lemma SubmitRecords(c: Crypto, s: State, a: Signed)
    requires Accepted(c, s, a)
    ensures var s' := Step(c, s, Submit(a));
            var x := FirstBy(ListAt(s', a.chain, a.height), a.validator);
            x.Some? && (x.value.stateRoot == a.stateRoot || Caught(s', a.validator, a.chain, a.height))
  {
    hide Verifies;
    var s' := Step(c, s, Submit(a));
    var list := ListAt(s, a.chain, a.height);
    match FirstBy(list, a.validator)
    case None => FirstByAppend(list, a, a.validator);
    case Some(x) =>
      if x.stateRoot != a.stateRoot {
        assert Names(s'.proofs[|s.proofs|], a.validator, a.chain, a.height);
      }
  }

  lemma {:induction false} FirstByAppend(list: seq<Signed>, a: Signed, v: Str)
    ensures FirstBy(list + [a], v) ==
            if FirstBy(list, v).Some? then FirstBy(list, v) else if a.validator == v then Some(a) else None
  {
    if list != [] {
      FirstByAppend(list[1..], a, v);
      assert (list + [a])[1..] == list[1..] + [a];
    }
  }

  lemma {:induction false} FirstByGrows(list: seq<Signed>, longer: seq<Signed>, v: Str)
    requires list <= longer && FirstBy(list, v).Some?
    ensures FirstBy(longer, v) == FirstBy(list, v)
  {
    if list[0].validator != v {
      assert list[1..] <= longer[1..];
      FirstByGrows(list[1..], longer[1..], v);
    }
  }

  lemma CaughtStays(s: State, s': State, v: Str, chain: Str, height: nat)
    requires Grows(s, s') && Caught(s, v, chain, height)
    ensures Caught(s', v, chain, height)
  {
    var k :| 0 <= k < |s.proofs| && Names(s.proofs[k], v, chain, height);
    assert s'.proofs[k] == s.proofs[k];
  }

  /** A registered validator that submits two valid conflicting roots for one key ends up in a proof. */
  lemma EquivocationCaught(c: Crypto, events: seq<Event>, i: nat, j: nat, a: Signed, b: Signed)
    requires i < j < |events| && events[i] == Submit(a) && events[j] == Submit(b)
    requires a.validator == b.validator && a.chain == b.chain && a.height == b.height && a.stateRoot != b.stateRoot
    requires Verifies(c, a) && Verifies(c, b) && a.validator in Run(c, events[..i]).validators
    ensures Caught(Run(c, events), a.validator, a.chain, a.height)
  {
    hide Verifies, Step, Run, ListAt;
    var (si, sa) := (Run(c, events[..i]), Run(c, events[..i + 1]));
    var (sj, sb) := (Run(c, events[..j]), Run(c, events[..j + 1]));
    RunSnoc(c, events, i);
    RunSnoc(c, events, j);
    RunBetween(c, events, i, j);
    RunBetween(c, events, i + 1, j);
    SubmitRecords(c, si, a);
    SubmitRecords(c, sj, b);
    var (v, chain, height) := (a.validator, a.chain, a.height);
    if Caught(sa, v, chain, height) {
      RunGrows(c, events, i + 1);
      CaughtStays(sa, Run(c, events), v, chain, height);
    } else {
      RunBetween(c, events, i + 1, j + 1);
      FirstByGrows(ListAt(sa, chain, height), ListAt(sb, chain, height), v);
      RunGrows(c, events, j + 1);
      CaughtStays(sb, Run(c, events), v, chain, height);
    }
  }

  lemma RunSnoc(c: Crypto, events: seq<Event>, i: nat)
    requires i < |events|
    ensures Run(c, events[..i + 1]) == Step(c, Run(c, events[..i]), events[i])
  {
    assert events[..i + 1][..i] == events[..i];
  }

  lemma RunBetween(c: Crypto, events: seq<Event>, i: nat, j: nat)
    requires i <= j <= |events|
    ensures Grows(Run(c, events[..i]), Run(c, events[..j]))
  {
    assert events[..j][..i] == events[..i];
    RunGrows(c, events[..j], i);
  }

  // ----- quorums

  function RootOfAtt(a: Signed): Bytes {
    a.stateRoot
  }

  /** The attestations of a list for one root. */
  function Backing(list: seq<Signed>, root: Str): seq<Signed> {
    Group(list, RootOfAtt, root)
  }

  /** A quorum counts validators: those whose recorded attestation is for the root. */
  lemma QuorumCountsValidators(c: Crypto, events: seq<Event>, threshold: nat, chain: Str, height: nat, root: Str)
    ensures var s := Run(c, events);
            QuorumReached(s, threshold, chain, height, root) <==>
            (chain, height) in s.lists && |Backers(ListAt(s, chain, height), root)| >= threshold
  {
    hide Run, Verifies;
    RunSound(c, events);
    assert GoodList(c, Run(c, events), chain, height);
    BackersCounted(ListAt(Run(c, events), chain, height), root);
  }

  predicate QuorumReached(s: State, threshold: nat, chain: Str, height: nat, root: Str) {
    (chain, height) in s.lists && |Backing(s.lists[(chain, height)], root)| >= threshold
  }

  ghost function Backers(list: seq<Signed>, root: Str): set<Str> {
    set i | 0 <= i < |list| && list[i].stateRoot == root :: list[i].validator
  }

  /** With one attestation per validator, counting attestations counts validators. */
  lemma {:induction false} BackersCounted(list: seq<Signed>, root: Str)
    requires DistinctKeys(list, ValidatorOf)
    ensures |Backers(list, root)| == |Backing(list, root)|
  {
    if list != [] {
      BackersCounted(list[1..], root);
      BackersCons(list, root);
    }
  }

  lemma BackersCons(list: seq<Signed>, root: Str)
    requires list != [] && DistinctKeys(list, ValidatorOf)
    ensures Backers(list, root) ==
            Backers(list[1..], root) + (if list[0].stateRoot == root then {list[0].validator} else {})
    ensures list[0].validator !in Backers(list[1..], root)
  {
    var rest := list[1..];
    forall v | v in Backers(rest, root) ensures v in Backers(list, root) && v != list[0].validator {
      var i :| 0 <= i < |rest| && rest[i].stateRoot == root && rest[i].validator == v;
      assert list[i + 1] == rest[i] && ValidatorOf(list[0]) != ValidatorOf(list[i + 1]);
    }
    forall v | v in Backers(list, root)
      ensures v in Backers(rest, root) || (v == list[0].validator && list[0].stateRoot == root)
    {
      var i :| 0 <= i < |list| && list[i].stateRoot == root && list[i].validator == v;
      if i > 0 { assert rest[i - 1] == list[i]; }
    }
  }

  lemma BackingGrows(list: seq<Signed>, longer: seq<Signed>, root: Str)
    requires list <= longer
    ensures |Backing(list, root)| <= |Backing(longer, root)|
  {
    assert longer == list + longer[|list|..];
    GroupAppend(list, longer[|list|..], RootOfAtt, root);
  }

  /** While twice the threshold exceeds the validator count, one key sees at most one quorum root, over all time. */
  lemma AtMostOneQuorum(c: Crypto, events: seq<Event>, i: nat, threshold: nat, chain: Str, height: nat, p: Str, q: Str)
    requires i <= |events| && 2 * threshold > |Run(c, events).validators|
    requires QuorumReached(Run(c, events[..i]), threshold, chain, height, p)
    requires QuorumReached(Run(c, events), threshold, chain, height, q)
    ensures p == q
  {
    hide Verifies, Step, Run;
    var (early, late) := (Run(c, events[..i]), Run(c, events));
    RunGrows(c, events, i);
    RunSound(c, events);
    assert GoodList(c, late, chain, height);
    var list := ListAt(late, chain, height);
    BackingGrows(ListAt(early, chain, height), list, p);
    BackersCounted(list, p);
    BackersCounted(list, q);
    if p != q {
      TwoCamps(list, late.validators, p, q);
    }
  }

  lemma TwoCamps(list: seq<Signed>, validators: set<Str>, p: Str, q: Str)
    requires DistinctKeys(list, ValidatorOf) && p != q
    requires forall i | 0 <= i < |list| :: list[i].validator in validators
    ensures |Backers(list, p)| + |Backers(list, q)| <= |validators|
  {
    var (a, b) := (Backers(list, p), Backers(list, q));
    forall v | v in a ensures v !in b {
      OneCamp(list, p, q, v);
    }
    assert a !! b;
    assert |a + b| == |a| + |b|;
    Subset(a + b, validators);
  }

  lemma OneCamp(list: seq<Signed>, p: Str, q: Str, v: Str)
    requires DistinctKeys(list, ValidatorOf) && p != q && v in Backers(list, p)
    ensures v !in Backers(list, q)
  {
    var i :| 0 <= i < |list| && list[i].stateRoot == p && list[i].validator == v;
    forall j | 0 <= j < |list| && list[j].stateRoot == q ensures list[j].validator != v {
      assert i < j ==> ValidatorOf(list[i]) != ValidatorOf(list[j]);
      assert j < i ==> ValidatorOf(list[j]) != ValidatorOf(list[i]);
    }
  }

  lemma {:induction false} Subset<T>(a: set<T>, b: set<T>)
    requires a <= b
    ensures |a| <= |b|
  {
    if a != {} {
      var x :| x in a;
      Subset(a - {x}, b - {x});
    }
  }

  // ----- the quorum result

  datatype QuorumResult = QuorumResult(chain: Str, height: nat, stateRoot: Str, blockHash: Str, supporting: seq<Signed>,
                                       merkleRoot: Digest, supportCount: nat, threshold: nat)

  /** Root `a` is at least as good as `b`: more backing, or equal backing and not smaller as a string. */
  predicate AtLeast(list: seq<Signed>, a: Str, b: Str) {
    |Backing(list, b)| < |Backing(list, a)| || (|Backing(list, b)| == |Backing(list, a)| && LexLe(b, a))
  }

  /** The most-backed root, ties to the greatest. */
  ghost predicate Winner(list: seq<Signed>, root: Str) {
    Backing(list, root) != [] && forall r: Str | Backing(list, r) != [] :: AtLeast(list, root, r)
  }

  lemma WinnerUnique(xs: seq<Signed>, ys: seq<Signed>, p: Str, q: Str)
    requires forall r: Str :: |Backing(xs, r)| == |Backing(ys, r)|
    requires Winner(xs, p) && Winner(ys, q)
    ensures p == q
  {
    hide Backing, LexLe;
    assert AtLeast(xs, p, q) && AtLeast(ys, q, p);
    if |Backing(xs, p)| == |Backing(xs, q)| { LexAntisymmetric(p, q); }
  }

  lemma {:induction false} GroupCounts<T>(xs: seq<T>, key: T -> Bytes, k: Bytes, x: T)
    ensures multiset(Group(xs, key, k))[x] == if key(x) == k then multiset(xs)[x] else 0
  {
    if xs != [] {
      GroupCounts(xs[1..], key, k, x);
      assert xs == [xs[0]] + xs[1..];
      assert multiset(xs)[x] == multiset([xs[0]])[x] + multiset(xs[1..])[x];
    }
  }

  lemma GroupPermutes<T(!new)>(xs: seq<T>, ys: seq<T>, key: T -> Bytes, k: Bytes)
    requires multiset(xs) == multiset(ys)
    ensures multiset(Group(xs, key, k)) == multiset(Group(ys, key, k))
    ensures |Group(xs, key, k)| == |Group(ys, key, k)|
  {
    forall x ensures multiset(Group(xs, key, k))[x] == multiset(Group(ys, key, k))[x] {
      GroupCounts(xs, key, k, x);
      GroupCounts(ys, key, k, x);
    }
    assert multiset(Group(xs, key, k)) == multiset(Group(ys, key, k));
    assert |multiset(Group(xs, key, k))| == |Group(xs, key, k)|;
  }

  lemma {:induction false} GroupWithin<T>(xs: seq<T>, key: T -> Bytes, k: Bytes, x: T)
    requires x in Group(xs, key, k)
    ensures x in xs && key(x) == k
  {
    if x !in (if key(xs[0]) == k then [xs[0]] else []) { GroupWithin(xs[1..], key, k, x); }
  }

  lemma {:induction false} BackingDistinct(list: seq<Signed>, root: Str)
    requires DistinctKeys(list, ValidatorOf)
    ensures DistinctKeys(Backing(list, root), ValidatorOf)
  {
    if list != [] {
      var rest := list[1..];
      BackingDistinct(rest, root);
      var g := Backing(rest, root);
      forall i | 0 <= i < |g| ensures ValidatorOf(g[i]) != ValidatorOf(list[0]) {
        assert g[i] in g;
        GroupWithin(rest, RootOfAtt, root, g[i]);
        var j :| 0 <= j < |rest| && rest[j] == g[i];
        assert ValidatorOf(list[j + 1]) != ValidatorOf(list[0]);
      }
    }
  }

  /** What `build_quorum_result` may answer in a state. */
  ghost predicate IsResult(c: Crypto, s: State, threshold: nat, chain: Str, height: nat, r: Option<QuorumResult>) {
    var list := ListAt(s, chain, height);
    && (r.Some? <==> list != [] && exists root: Str :: |Backing(list, root)| >= threshold)
    && (r.Some? ==>
          && Winner(list, r.value.stateRoot) && r.value.supporting == Backing(list, r.value.stateRoot)
          && r.value.merkleRoot == MerkleRoot(c.H, r.value.supporting)
          && r.value.blockHash == r.value.supporting[0].blockHash && r.value.supportCount == |list|
          && r.value.chain == chain && r.value.height == height && r.value.threshold == threshold)
  }

  class ConsensusManager {
    const crypto: Crypto
    const threshold: nat
    var validators: set<Str>
    var lists: map<(Str, nat), seq<Signed>>
    var slashingProofs: seq<EquivocationProof>

    ghost function Abstract(): State
      reads this
    {
      State(validators, lists, slashingProofs)
    }

    constructor (crypto: Crypto, threshold: nat)
      ensures this.crypto == crypto && this.threshold == threshold && Abstract() == INIT
    {
      this.crypto, this.threshold := crypto, threshold;
      validators, lists, slashingProofs := {}, map[], [];
    }

    method RegisterValidator(v: Str)
      modifies this
      ensures Abstract() == Step(crypto, old(Abstract()), Register(v))
    {
      validators := validators + {v};
    }

    method AddAttestation(a: Signed) returns (added: bool)
      modifies this
      ensures Abstract() == Step(crypto, old(Abstract()), Submit(a))
      ensures added <==>
              Accepted(crypto, old(Abstract()), a) &&
              FirstBy(old(ListAt(Abstract(), a.chain, a.height)), a.validator).None?
    {
      hide Verifies;
      if !Verifies(crypto, a) { return false; }
      if validators == {} { return false; }
      if a.validator !in validators { return false; }
      var key := (a.chain, a.height);
      var list := if key in lists then lists[key] else [];
      var existing := FirstBy(list, a.validator);
      if existing.Some? {
        if existing.value.stateRoot != a.stateRoot {
          slashingProofs := slashingProofs + [EquivocationProof(a.chain, a.height, a.validator, existing.value, a)];
        }
        return false;
      }
      lists := lists[key := list + [a]];
      return true;
    }

    method IsQuorumReached(chain: Str, height: nat, root: Str) returns (reached: bool)
      ensures reached == QuorumReached(Abstract(), threshold, chain, height, root)
    {
      if (chain, height) !in lists { return false; }
      var list := lists[(chain, height)];
      var count := 0;
      for i := 0 to |list|
        invariant count == |Backing(list[..i], root)|
      {
        assert list[..i + 1] == list[..i] + [list[i]];
        GroupAppend(list[..i], [list[i]], RootOfAtt, root);
        if list[i].stateRoot == root { count := count + 1; }
      }
      assert list[..|list|] == list;
      return count >= threshold;
    }

    /** A result exists exactly when some root meets the threshold; it names the winner and all its backing. */
    method BuildQuorumResult(chain: Str, height: nat) returns (r: Option<QuorumResult>)
      ensures IsResult(crypto, Abstract(), threshold, chain, height, r)
      ensures r.Some? ==>
                forall root: Str | Backing(ListAt(Abstract(), chain, height), root) != [] ::
                  var count := |Backing(ListAt(Abstract(), chain, height), root)|;
                  count < |r.value.supporting| || (count == |r.value.supporting| && LexLe(root, r.value.stateRoot))
    {
      hide MerkleRoot, Backing, AtLeast;
      var list := if (chain, height) in lists then lists[(chain, height)] else [];
      if list == [] { return None; }
      var groups := GroupByRoot(list);
      var root := BestRoot(list, groups);
      var supporting := groups[root];
      WinnerDecides(list, root, threshold);
      WinnerIsBest(list, root);
      if |supporting| < threshold { return None; }
      var merkle := ComputeAttestationMerkleRoot(crypto.H, supporting);
      return Some(QuorumResult(chain, height, root, supporting[0].blockHash, supporting, merkle, |list|, threshold));
    }
  }

  lemma WinnerIsBest(list: seq<Signed>, root: Str)
    requires Winner(list, root)
    ensures forall r: Str | Backing(list, r) != [] ::
              |Backing(list, r)| < |Backing(list, root)| ||
              (|Backing(list, r)| == |Backing(list, root)| && LexLe(r, root))
  {
    hide Backing, LexLe;
    forall r: Str | Backing(list, r) != [] ensures AtLeast(list, root, r) {
    }
  }

  lemma WinnerDecides(list: seq<Signed>, root: Str, threshold: nat)
    requires Winner(list, root)
    ensures |Backing(list, root)| >= threshold <==> exists r: Str :: |Backing(list, r)| >= threshold
  {
    hide Backing;
    if r: Str :| |Backing(list, r)| >= threshold && Backing(list, r) != [] {
      assert AtLeast(list, root, r);
    }
  }

  ghost predicate GroupsOf(list: seq<Signed>, groups: map<Str, seq<Signed>>) {
    forall root: Str ::
      (root in groups <==> Backing(list, root) != []) && (root in groups ==> groups[root] == Backing(list, root))
  }

  method GroupByRoot(list: seq<Signed>) returns (groups: map<Str, seq<Signed>>)
    ensures GroupsOf(list, groups)
  {
    groups := map[];
    for i := 0 to |list|
      invariant GroupsOf(list[..i], groups)
    {
      var root := list[i].stateRoot;
      assert list[..i + 1] == list[..i] + [list[i]];
      forall r: Str ensures Backing(list[..i + 1], r) == Backing(list[..i], r) + (if r == root then [list[i]] else []) {
        GroupAppend(list[..i], [list[i]], RootOfAtt, r);
      }
      groups := groups[root := (if root in groups then groups[root] else []) + [list[i]]];
    }
    assert list[..|list|] == list;
  }

  lemma BackingHead(list: seq<Signed>)
    requires list != []
    ensures Backing(list, list[0].stateRoot) != []
  {
  }

  /** The maximum over the groups in any iteration order. */
  method BestRoot(list: seq<Signed>, groups: map<Str, seq<Signed>>) returns (root: Str)
    requires list != [] && GroupsOf(list, groups)
    ensures Winner(list, root) && root in groups
  {
    hide Backing, LexLe;
    var rest := groups.Keys;
    BackingHead(list);
    assert list[0].stateRoot in rest;
    root :| root in rest;
    rest := rest - {root};
    LexTotal(root, root);
    while rest != {}
      invariant rest <= groups.Keys && root in groups
      invariant forall r | r in groups && r !in rest :: AtLeast(list, root, r)
      decreases rest
    {
      var r :| r in rest;
      rest := rest - {r};
      if |groups[root]| < |groups[r]| || (|groups[root]| == |groups[r]| && LexLe(root, r)) {
        forall x | x in groups && x !in rest ensures AtLeast(list, r, x) {
          AtLeastSteps(list, r, root, x);
        }
        root := r;
      } else {
        LexTotal(root, r);
      }
    }
  }

  lemma AtLeastSteps(list: seq<Signed>, a: Str, b: Str, x: Str)
    requires AtLeast(list, a, b) && (AtLeast(list, b, x) || x == a)
    ensures AtLeast(list, a, x)
  {
    hide Backing, LexLe;
    LexTotal(a, a);
    if LexLe(x, b) && LexLe(b, a) { LexTransitive(x, b, a); }
  }
}
