/**
 Arrival order. Which attestation of a validator is recorded is decided by which came first, so the quorum result
 is independent of the order exactly as far as no validator says two things about one chain and height.
 */
module Arrival {
  import opened Bytes
  import opened Order
  import opened Attestation
  import opened Consensus

  // ----- what a run has heard

  /** The run submits `a` at a point where it verifies and its validator is registered. */
  ghost predicate Heard(c: Crypto, events: seq<Event>, a: Signed) {
    exists i :: 0 <= i < |events| && events[i] == Submit(a) && Accepted(c, Run(c, events[..i]), a)
  }

  ghost predicate HeardOn(c: Crypto, events: seq<Event>, chain: Str, height: nat, a: Signed) {
    a.chain == chain && a.height == height && Heard(c, events, a)
  }

  /** Two runs hear the same attestations for a key, in whatever order, however often. */
  ghost predicate SameHeard(c: Crypto, xs: seq<Event>, ys: seq<Event>, chain: Str, height: nat) {
    forall a :: HeardOn(c, xs, chain, height, a) <==> HeardOn(c, ys, chain, height, a)
  }

  /** No validator is heard with two attestations for the key that differ in more than their timestamp. */
  ghost predicate OneVoice(c: Crypto, events: seq<Event>, chain: Str, height: nat) {
    forall a, b |
      HeardOn(c, events, chain, height, a) && HeardOn(c, events, chain, height, b) && a.validator == b.validator ::
      Untimed(a) == Untimed(b)
  }

  /** No validator is heard with two roots for the key. */
  ghost predicate OneRoot(c: Crypto, events: seq<Event>, chain: Str, height: nat) {
    forall a, b |
      HeardOn(c, events, chain, height, a) && HeardOn(c, events, chain, height, b) && a.validator == b.validator ::
      a.stateRoot == b.stateRoot
  }

  lemma HeardSnoc(c: Crypto, events: seq<Event>, e: Event, a: Signed)
    ensures Heard(c, events + [e], a) <==> Heard(c, events, a) || (e == Submit(a) && Accepted(c, Run(c, events), a))
  {
    hide Run, Accepted;
    var longer := events + [e];
    assert longer[..|events|] == events && longer[|events|] == e;
    assert forall i | 0 <= i < |events| :: longer[i] == events[i] && longer[..i] == events[..i];
    if Heard(c, events, a) {
      var i :| 0 <= i < |events| && events[i] == Submit(a) && Accepted(c, Run(c, events[..i]), a);
      assert longer[i] == Submit(a) && Accepted(c, Run(c, longer[..i]), a);
    }
    if e == Submit(a) && Accepted(c, Run(c, events), a) {
      assert longer[|events|] == Submit(a) && Accepted(c, Run(c, longer[..|events|]), a);
    }
  }

  /** A list holds heard attestations only, and one of every validator heard. */
  ghost predicate Recorded(c: Crypto, events: seq<Event>, chain: Str, height: nat) {
    var list := ListAt(Run(c, events), chain, height);
    && (forall a | a in list :: HeardOn(c, events, chain, height, a))
    && (forall a | HeardOn(c, events, chain, height, a) :: FirstBy(list, a.validator).Some?)
  }

  lemma {:induction false} RunRecorded(c: Crypto, events: seq<Event>, chain: Str, height: nat)
    ensures Recorded(c, events, chain, height)
  {
    hide Step, Heard, Accepted, FirstBy;
    if events == [] {
      NothingHeard(c);
    } else {
      var init, e := events[..|events| - 1], events[|events| - 1];
      assert init + [e] == events;
      RunRecorded(c, init, chain, height);
      forall a ensures Heard(c, events, a) <==> Heard(c, init, a) || (e == Submit(a) && Accepted(c, Run(c, init), a)) {
        HeardSnoc(c, init, e, a);
      }
      StepRecords(c, Run(c, init), e, chain, height);
    }
  }

  lemma NothingHeard(c: Crypto)
    ensures forall a :: !Heard(c, [], a)
  {
  }

  /** How one event changes the list of a key. */
  lemma StepRecords(c: Crypto, s: State, e: Event, chain: Str, height: nat)
    ensures var (list, list') := (ListAt(s, chain, height), ListAt(Step(c, s, e), chain, height));
            && (forall a | a in list' ::
                  a in list || (e == Submit(a) && Accepted(c, s, a) && a.chain == chain && a.height == height))
            && (forall v | FirstBy(list, v).Some? :: FirstBy(list', v).Some?)
            && (e.Submit? && Accepted(c, s, e.att) && e.att.chain == chain && e.att.height == height ==>
                  FirstBy(list', e.att.validator).Some?)
  {
    hide Verifies, FirstBy;
    var list := ListAt(s, chain, height);
    if e.Submit? {
      forall v ensures FirstBy(list + [e.att], v) ==
                       if FirstBy(list, v).Some? then FirstBy(list, v)
                       else if e.att.validator == v then Some(e.att) else None
      {
        FirstByAppend(list, e.att, v);
      }
    }
  }

  // ----- one voice, one list

  function Untimes(list: seq<Signed>): (us: seq<Signed>)
    ensures |us| == |list| && forall i | 0 <= i < |list| :: us[i] == Untimed(list[i])
  {
    seq<Signed>(|list|, i requires 0 <= i < |list| => Untimed(list[i]))
  }

  /** Equal up to timestamps and order. */
  ghost predicate SameList(xs: seq<Signed>, ys: seq<Signed>) {
    multiset(Untimes(xs)) == multiset(Untimes(ys))
  }

  lemma {:induction false} FirstByAt(list: seq<Signed>, i: nat)
    requires DistinctKeys(list, ValidatorOf) && i < |list|
    ensures FirstBy(list, list[i].validator) == Some(list[i])
  {
    if i > 0 {
      assert ValidatorOf(list[0]) != ValidatorOf(list[i]);
      FirstByAt(list[1..], i - 1);
    }
  }

  lemma {:induction false} CountOnce<T>(xs: seq<T>, key: T -> Bytes, x: T)
    requires DistinctKeys(xs, key)
    ensures multiset(xs)[x] == if x in xs then 1 else 0
  {
    if xs != [] {
      CountOnce(xs[1..], key, x);
      assert xs == [xs[0]] + xs[1..];
      if xs[0] in xs[1..] {
        var i :| 0 <= i < |xs[1..]| && xs[1..][i] == xs[0];
        assert key(xs[0]) != key(xs[i + 1]);
      }
    }
  }

  lemma SameMembers<T(!new)>(xs: seq<T>, ys: seq<T>, key: T -> Bytes)
    requires DistinctKeys(xs, key) && DistinctKeys(ys, key) && forall x :: x in xs <==> x in ys
    ensures multiset(xs) == multiset(ys)
  {
    forall x ensures multiset(xs)[x] == multiset(ys)[x] {
      CountOnce(xs, key, x);
      CountOnce(ys, key, x);
    }
  }

  lemma UntimesDistinct(list: seq<Signed>)
    requires DistinctKeys(list, ValidatorOf)
    ensures DistinctKeys(Untimes(list), ValidatorOf)
  {
    var us := Untimes(list);
    forall i, j | 0 <= i < j < |us| ensures ValidatorOf(us[i]) != ValidatorOf(us[j]) {
      assert ValidatorOf(list[i]) != ValidatorOf(list[j]);
    }
  }

  /** Every attestation of one run's list is in the other's, timestamp aside. */
  lemma Carried(c: Crypto, xs: seq<Event>, ys: seq<Event>, chain: Str, height: nat, a: Signed)
    requires SameHeard(c, xs, ys, chain, height) && OneVoice(c, xs, chain, height)
    requires Recorded(c, xs, chain, height) && Recorded(c, ys, chain, height) && a in ListAt(Run(c, xs), chain, height)
    ensures Untimed(a) in Untimes(ListAt(Run(c, ys), chain, height))
  {
    hide Run, HeardOn, FirstBy;
    var list := ListAt(Run(c, ys), chain, height);
    assert HeardOn(c, xs, chain, height, a) && HeardOn(c, ys, chain, height, a);
    var b := FirstBy(list, a.validator).value;
    assert HeardOn(c, ys, chain, height, b) && HeardOn(c, xs, chain, height, b);
    var i :| 0 <= i < |list| && list[i] == b;
    assert Untimes(list)[i] == Untimed(a);
  }

  lemma OneVoiceShared(c: Crypto, xs: seq<Event>, ys: seq<Event>, chain: Str, height: nat)
    requires SameHeard(c, xs, ys, chain, height)
    ensures SameHeard(c, ys, xs, chain, height)
    ensures OneVoice(c, xs, chain, height) ==> OneVoice(c, ys, chain, height)
    ensures OneRoot(c, xs, chain, height) ==> OneRoot(c, ys, chain, height)
  {
    hide HeardOn;
  }

  lemma ListDistinct(c: Crypto, events: seq<Event>, chain: Str, height: nat)
    ensures DistinctKeys(ListAt(Run(c, events), chain, height), ValidatorOf)
  {
    hide Run, Verifies, ListAt, DistinctKeys;
    RunSound(c, events);
    assert GoodList(c, Run(c, events), chain, height);
  }

  /** When no validator speaks twice, what was heard determines the list up to timestamps and order. */
  lemma ListsAgree(c: Crypto, xs: seq<Event>, ys: seq<Event>, chain: Str, height: nat)
    requires SameHeard(c, xs, ys, chain, height) && OneVoice(c, xs, chain, height)
    ensures SameList(ListAt(Run(c, xs), chain, height), ListAt(Run(c, ys), chain, height))
  {
    hide Run, SameHeard, OneVoice, OneRoot, Recorded, ListAt, DistinctKeys, Untimed;
    var (lx, ly) := (ListAt(Run(c, xs), chain, height), ListAt(Run(c, ys), chain, height));
    RunRecorded(c, xs, chain, height);
    RunRecorded(c, ys, chain, height);
    OneVoiceShared(c, xs, ys, chain, height);
    forall a | a in lx ensures Untimed(a) in Untimes(ly) {
      Carried(c, xs, ys, chain, height, a);
    }
    forall a | a in ly ensures Untimed(a) in Untimes(lx) {
      Carried(c, ys, xs, chain, height, a);
    }
    ListDistinct(c, xs, chain, height);
    ListDistinct(c, ys, chain, height);
    UntimesDistinct(lx);
    UntimesDistinct(ly);
    SameMembers(Untimes(lx), Untimes(ly), ValidatorOf);
  }

  // ----- timestamps do not matter to the result

  lemma {:induction false} InsertUntimed(x: Signed, xs: seq<Signed>)
    ensures Insert(Untimed(x), Untimes(xs), ValidatorOf) == Untimes(Insert(x, xs, ValidatorOf))
  {
    hide LexLe;
    if xs == [] || LexLe(ValidatorOf(x), ValidatorOf(xs[0])) {
      assert Untimes([x] + xs) == [Untimed(x)] + Untimes(xs);
    } else {
      InsertUntimed(x, xs[1..]);
      assert Untimes(xs)[1..] == Untimes(xs[1..]);
      assert Untimes([xs[0]] + Insert(x, xs[1..], ValidatorOf)) ==
             [Untimed(xs[0])] + Untimes(Insert(x, xs[1..], ValidatorOf));
    }
  }

  lemma {:induction false} SortUntimed(xs: seq<Signed>)
    ensures Sort(Untimes(xs), ValidatorOf) == Untimes(Sort(xs, ValidatorOf))
  {
    hide Insert;
    if xs != [] {
      SortUntimed(xs[1..]);
      assert Untimes(xs)[1..] == Untimes(xs[1..]);
      InsertUntimed(xs[0], Sort(xs[1..], ValidatorOf));
    }
  }

  lemma RootUntimed(H: Hash, xs: seq<Signed>)
    ensures MerkleRoot(H, Untimes(xs)) == MerkleRoot(H, xs)
  {
    hide Sort;
    SortUntimed(xs);
    SortedLength(xs);
    var s := Sorted(xs);
    forall i | 0 <= i < |s| ensures LeafBytes(Untimes(s)[i]) == LeafBytes(s[i]) {
      LeafUntimed(s[i]);
    }
    assert LeafList(Sorted(Untimes(xs))) == LeafList(s);
  }

  lemma LeafUntimed(a: Signed)
    ensures LeafBytes(Untimed(a)) == LeafBytes(a)
  {
  }

  lemma {:induction false} BackingUntimed(xs: seq<Signed>, root: Str)
    ensures Backing(Untimes(xs), root) == Untimes(Backing(xs, root))
  {
    if xs != [] {
      BackingUntimed(xs[1..], root);
      assert Untimes(xs)[1..] == Untimes(xs[1..]);
      var head := if xs[0].stateRoot == root then [xs[0]] else [];
      assert Untimes(head + Backing(xs[1..], root)) == Untimes(head) + Untimes(Backing(xs[1..], root));
    }
  }

  // ----- the result

  lemma SameCounts(xs: seq<Signed>, ys: seq<Signed>, root: Str)
    requires SameList(xs, ys)
    ensures |Backing(xs, root)| == |Backing(ys, root)|
    ensures SameList(Backing(xs, root), Backing(ys, root))
  {
    hide Group, Untimed;
    BackingUntimed(xs, root);
    BackingUntimed(ys, root);
    GroupPermutes(Untimes(xs), Untimes(ys), RootOfAtt, root);
  }

  lemma SameRoot(H: Hash, xs: seq<Signed>, ys: seq<Signed>)
    requires DistinctKeys(xs, ValidatorOf) && DistinctKeys(ys, ValidatorOf) && SameList(xs, ys)
    ensures MerkleRoot(H, xs) == MerkleRoot(H, ys)
  {
    hide MerkleRoot, Untimed;
    UntimesDistinct(xs);
    UntimesDistinct(ys);
    MerkleRootOrder(H, Untimes(xs), Untimes(ys));
    RootUntimed(H, xs);
    RootUntimed(H, ys);
  }

  /** Lists with the same count for every root have a result together, and it names the same root. */
  lemma CountsDecide(c: Crypto, s: State, s': State, threshold: nat, chain: Str, height: nat,
                     r: Option<QuorumResult>, r': Option<QuorumResult>)
    requires IsResult(c, s, threshold, chain, height, r) && IsResult(c, s', threshold, chain, height, r')
    requires forall root: Str :: |Backing(ListAt(s, chain, height), root)| == |Backing(ListAt(s', chain, height), root)|
    ensures r.Some? <==> r'.Some?
    ensures r.Some? ==> r.value.stateRoot == r'.value.stateRoot
  {
    hide MerkleRoot, Backing, ListAt, Winner;
    var (xs, ys) := (ListAt(s, chain, height), ListAt(s', chain, height));
    NonemptyBacked(xs);
    NonemptyBacked(ys);
    if r.Some? && r'.Some? { WinnerUnique(xs, ys, r.value.stateRoot, r'.value.stateRoot); }
  }

  lemma NonemptyBacked(list: seq<Signed>)
    ensures list != [] <==> exists root: Str :: |Backing(list, root)| > 0
  {
    if list != [] {
      BackingHead(list);
      assert |Backing(list, list[0].stateRoot)| > 0;
    }
  }

  /** Runs that hear the same, one voice per validator, in any order, have the same result. */
  lemma ResultOrder(c: Crypto, xs: seq<Event>, ys: seq<Event>, threshold: nat, chain: Str, height: nat,
                    r: Option<QuorumResult>, r': Option<QuorumResult>)
    requires SameHeard(c, xs, ys, chain, height) && OneVoice(c, xs, chain, height)
    requires IsResult(c, Run(c, xs), threshold, chain, height, r) &&
             IsResult(c, Run(c, ys), threshold, chain, height, r')
    ensures SameList(ListAt(Run(c, xs), chain, height), ListAt(Run(c, ys), chain, height))
    ensures r.Some? <==> r'.Some?
    ensures r.Some? ==> r.value.stateRoot == r'.value.stateRoot && r.value.merkleRoot == r'.value.merkleRoot
  {
    hide *;
    var (lx, ly) := (ListAt(Run(c, xs), chain, height), ListAt(Run(c, ys), chain, height));
    ListsAgree(c, xs, ys, chain, height);
    forall root: Str
      ensures |Backing(lx, root)| == |Backing(ly, root)| && SameList(Backing(lx, root), Backing(ly, root))
    {
      SameCounts(lx, ly, root);
    }
    CountsDecide(c, Run(c, xs), Run(c, ys), threshold, chain, height, r, r');
    if r.Some? {
      var root := r.value.stateRoot;
      ListDistinct(c, xs, chain, height);
      ListDistinct(c, ys, chain, height);
      BackingDistinct(lx, root);
      BackingDistinct(ly, root);
      SameRoot(c.H, Backing(lx, root), Backing(ly, root));
      ResultRoot(c, Run(c, xs), threshold, chain, height, r);
      ResultRoot(c, Run(c, ys), threshold, chain, height, r');
    }
  }

  lemma ResultRoot(c: Crypto, s: State, threshold: nat, chain: Str, height: nat, r: Option<QuorumResult>)
    requires IsResult(c, s, threshold, chain, height, r) && r.Some?
    ensures r.value.merkleRoot == MerkleRoot(c.H, Backing(ListAt(s, chain, height), r.value.stateRoot))
  {
    hide MerkleRoot, Backing;
  }

  lemma BackersCarried(c: Crypto, xs: seq<Event>, ys: seq<Event>, chain: Str, height: nat, root: Str)
    requires SameHeard(c, xs, ys, chain, height) && OneRoot(c, xs, chain, height)
    requires Recorded(c, xs, chain, height) && Recorded(c, ys, chain, height)
    ensures Backers(ListAt(Run(c, xs), chain, height), root) <= Backers(ListAt(Run(c, ys), chain, height), root)
  {
    hide Run, HeardOn, FirstBy, ListAt;
    var (lx, ly) := (ListAt(Run(c, xs), chain, height), ListAt(Run(c, ys), chain, height));
    forall v | v in Backers(lx, root) ensures v in Backers(ly, root) {
      var i :| 0 <= i < |lx| && lx[i].stateRoot == root && lx[i].validator == v;
      assert lx[i] in lx && HeardOn(c, xs, chain, height, lx[i]) && HeardOn(c, ys, chain, height, lx[i]);
      var b := FirstBy(ly, v).value;
      assert b in ly && HeardOn(c, ys, chain, height, b) && HeardOn(c, xs, chain, height, b);
    }
  }

  /** One root per validator is enough for the same winning root, whatever else the attestations say. */
  lemma RootOrder(c: Crypto, xs: seq<Event>, ys: seq<Event>, threshold: nat, chain: Str, height: nat,
                  r: Option<QuorumResult>, r': Option<QuorumResult>)
    requires SameHeard(c, xs, ys, chain, height) && OneRoot(c, xs, chain, height)
    requires IsResult(c, Run(c, xs), threshold, chain, height, r) &&
             IsResult(c, Run(c, ys), threshold, chain, height, r')
    ensures r.Some? <==> r'.Some?
    ensures r.Some? ==> r.value.stateRoot == r'.value.stateRoot
  {
    hide *;
    var (lx, ly) := (ListAt(Run(c, xs), chain, height), ListAt(Run(c, ys), chain, height));
    RunRecorded(c, xs, chain, height);
    RunRecorded(c, ys, chain, height);
    OneVoiceShared(c, xs, ys, chain, height);
    ListDistinct(c, xs, chain, height);
    ListDistinct(c, ys, chain, height);
    forall root: Str ensures |Backing(lx, root)| == |Backing(ly, root)| {
      BackersCarried(c, xs, ys, chain, height, root);
      BackersCarried(c, ys, xs, chain, height, root);
      assert Backers(lx, root) == Backers(ly, root);
      BackersCounted(lx, root);
      BackersCounted(ly, root);
    }
    CountsDecide(c, Run(c, xs), Run(c, ys), threshold, chain, height, r, r');
  }

  // ----- permuted submissions

  function Submits(atts: seq<Signed>): (events: seq<Event>)
    ensures |events| == |atts| && forall i | 0 <= i < |atts| :: events[i] == Submit(atts[i])
  {
    seq<Event>(|atts|, i requires 0 <= i < |atts| => Submit(atts[i]))
  }

  /** Submissions leave the validators alone, so all of them are judged by the set they started from. */
  lemma {:induction false} HeardAfter(c: Crypto, base: seq<Event>, atts: seq<Signed>)
    ensures Run(c, base + Submits(atts)).validators == Run(c, base).validators
    ensures forall a ::
              Heard(c, base + Submits(atts), a) <==> Heard(c, base, a) || (a in atts && Accepted(c, Run(c, base), a))
  {
    hide Run, Heard, Verifies;
    if atts == [] {
      assert base + Submits(atts) == base;
    } else {
      var init, last := atts[..|atts| - 1], atts[|atts| - 1];
      HeardAfter(c, base, init);
      var shorter := base + Submits(init);
      assert base + Submits(atts) == shorter + [Submit(last)];
      assert atts == init + [last];
      forall a ensures Heard(c, shorter + [Submit(last)], a) <==>
                       Heard(c, shorter, a) || (Submit(last) == Submit(a) && Accepted(c, Run(c, shorter), a))
      {
        HeardSnoc(c, shorter, Submit(last), a);
      }
      RunEnd(c, shorter, Submit(last));
    }
  }

  lemma RunEnd(c: Crypto, events: seq<Event>, e: Event)
    ensures Run(c, events + [e]) == Step(c, Run(c, events), e)
  {
    assert (events + [e])[..|events|] == events;
  }

  /** After any beginning, two orders of the same submissions are heard alike. */
  lemma PermutedHeard(c: Crypto, base: seq<Event>, xs: seq<Signed>, ys: seq<Signed>, chain: Str, height: nat)
    requires multiset(xs) == multiset(ys)
    ensures SameHeard(c, base + Submits(xs), base + Submits(ys), chain, height)
  {
    hide Run, Heard, Accepted;
    HeardAfter(c, base, xs);
    HeardAfter(c, base, ys);
    forall a ensures a in xs <==> a in ys {
      assert a in xs <==> a in multiset(xs);
      assert a in ys <==> a in multiset(ys);
    }
  }

  // ----- and otherwise order decides

  /** The registrations of a run. */
  function Registrations(events: seq<Event>): seq<Event> {
    if events == [] then []
    else Registrations(events[..|events| - 1]) + (if events[|events| - 1].Register? then [events[|events| - 1]] else [])
  }

  /** The submissions a run accepts, in order. */
  function Said(c: Crypto, events: seq<Event>): seq<Signed> {
    if events == [] then []
    else
      var init, e := events[..|events| - 1], events[|events| - 1];
      Said(c, init) + (if e.Submit? && Accepted(c, Run(c, init), e.att) then [e.att] else [])
  }

  lemma {:induction false} SaidHeard(c: Crypto, events: seq<Event>)
    ensures forall a :: a in Said(c, events) <==> Heard(c, events, a)
    ensures forall a | Heard(c, events, a) :: Accepted(c, Run(c, events), a)
  {
    hide Heard, Verifies;
    if events == [] {
      NothingHeard(c);
    } else {
      var init, e := events[..|events| - 1], events[|events| - 1];
      assert init + [e] == events;
      SaidHeard(c, init);
      forall a ensures Heard(c, events, a) <==> Heard(c, init, a) || (e == Submit(a) && Accepted(c, Run(c, init), a)) {
        HeardSnoc(c, init, e, a);
      }
      StepGrows(c, Run(c, init), e);
    }
  }

  lemma {:induction false} Registered(c: Crypto, events: seq<Event>)
    ensures Run(c, Registrations(events)) == State(Run(c, events).validators, map[], [])
    ensures forall a :: !Heard(c, Registrations(events), a)
  {
    hide Heard, Verifies;
    if events == [] {
      NothingHeard(c);
    } else {
      var init, e := events[..|events| - 1], events[|events| - 1];
      Registered(c, init);
      if e.Submit? {
        assert Registrations(events) == Registrations(init) + [] == Registrations(init);
      } else {
        RunEnd(c, Registrations(init), e);
        forall a ensures !Heard(c, Registrations(events), a) {
          HeardSnoc(c, Registrations(init), e, a);
        }
      }
    }
  }

  /** The same registrations and the same accepted submissions, but `a` first. */
  function Fronted(c: Crypto, events: seq<Event>, a: Signed): seq<Event> {
    Registrations(events) + Submits([a] + Said(c, events))
  }

  lemma FrontedHeard(c: Crypto, events: seq<Event>, a: Signed, chain: Str, height: nat)
    requires Heard(c, events, a)
    ensures SameHeard(c, events, Fronted(c, events, a), chain, height)
  {
    hide Heard, Run, Verifies;
    Registered(c, events);
    SaidHeard(c, events);
    HeardAfter(c, Registrations(events), [a] + Said(c, events));
    forall x ensures Heard(c, events, x) <==> Heard(c, Fronted(c, events, a), x) {
      assert x in [a] + Said(c, events) <==> x == a || x in Said(c, events);
    }
  }

  /** There `a` is the one recorded for its validator. */
  lemma FrontedFirst(c: Crypto, events: seq<Event>, a: Signed)
    requires Heard(c, events, a)
    ensures FirstBy(ListAt(Run(c, Fronted(c, events, a)), a.chain, a.height), a.validator) == Some(a)
  {
    hide Run, Verifies, Heard;
    Registered(c, events);
    SaidHeard(c, events);
    var (regs, all) := (Registrations(events), Fronted(c, events, a));
    var first := regs + [Submit(a)];
    RunEnd(c, regs, Submit(a));
    assert all[..|first|] == first;
    assert ListAt(Run(c, first), a.chain, a.height) == [a];
    RunGrows(c, all, |first|);
    FirstByGrows([a], ListAt(Run(c, all), a.chain, a.height), a.validator);
  }

  /** Some attestation of `list` is `a` up to its timestamp, if the lists are the same. */
  lemma InBoth(list: seq<Signed>, other: seq<Signed>, a: Signed) returns (i: nat)
    requires SameList(list, other) && a in other
    ensures i < |list| && Untimed(list[i]) == Untimed(a)
  {
    hide Untimed;
    var k :| 0 <= k < |other| && other[k] == a;
    assert Untimes(other)[k] in multiset(Untimes(other));
    assert Untimed(a) in multiset(Untimes(list));
    i :| 0 <= i < |list| && Untimes(list)[i] == Untimed(a);
  }

  /**
   The recorded list is free of arrival order if and only if no validator is heard with two attestations for the
   key. An equivocator is recorded with whichever came first.
   */
  lemma OrderFreeIff(c: Crypto, xs: seq<Event>, chain: Str, height: nat)
    ensures OneVoice(c, xs, chain, height) <==>
            forall ys | SameHeard(c, xs, ys, chain, height) ::
              SameList(ListAt(Run(c, xs), chain, height), ListAt(Run(c, ys), chain, height))
  {
    hide Run, Heard, SameHeard, SameList, OneVoice;
    if OneVoice(c, xs, chain, height) {
      forall ys | SameHeard(c, xs, ys, chain, height)
        ensures SameList(ListAt(Run(c, xs), chain, height), ListAt(Run(c, ys), chain, height))
      {
        ListsAgree(c, xs, ys, chain, height);
      }
    }
    if forall ys | SameHeard(c, xs, ys, chain, height) ::
         SameList(ListAt(Run(c, xs), chain, height), ListAt(Run(c, ys), chain, height))
    {
      forall a, b | HeardOn(c, xs, chain, height, a) && HeardOn(c, xs, chain, height, b) && a.validator == b.validator
        ensures Untimed(a) == Untimed(b)
      {
        FrontedHeard(c, xs, a, chain, height);
        FrontedHeard(c, xs, b, chain, height);
        BothRecorded(c, xs, chain, height, a, b);
      }
      assert OneVoice(c, xs, chain, height) by { VoicesOne(c, xs, chain, height); }
    }
  }

  lemma VoicesOne(c: Crypto, xs: seq<Event>, chain: Str, height: nat)
    requires forall a, b |
               HeardOn(c, xs, chain, height, a) && HeardOn(c, xs, chain, height, b) && a.validator == b.validator ::
               Untimed(a) == Untimed(b)
    ensures OneVoice(c, xs, chain, height)
  {
    hide HeardOn;
  }

  lemma BothRecorded(c: Crypto, xs: seq<Event>, chain: Str, height: nat, a: Signed, b: Signed)
    requires HeardOn(c, xs, chain, height, a) && HeardOn(c, xs, chain, height, b) && a.validator == b.validator
    requires SameList(ListAt(Run(c, xs), chain, height), ListAt(Run(c, Fronted(c, xs, a)), chain, height))
    requires SameList(ListAt(Run(c, xs), chain, height), ListAt(Run(c, Fronted(c, xs, b)), chain, height))
    ensures Untimed(a) == Untimed(b)
  {
    hide Run, Heard, SameList, ListAt, FirstBy, Fronted;
    var list := ListAt(Run(c, xs), chain, height);
    ListDistinct(c, xs, chain, height);
    FrontedFirst(c, xs, a);
    FrontedFirst(c, xs, b);
    var i := InBoth(list, ListAt(Run(c, Fronted(c, xs, a)), chain, height), a);
    var j := InBoth(list, ListAt(Run(c, Fronted(c, xs, b)), chain, height), b);
    assert ValidatorOf(list[i]) == ValidatorOf(list[j]);
    assert i == j;
  }
}
