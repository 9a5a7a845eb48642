/**
 Replayable fixtures (`core-vm/src/fixture.rs`): any two interleavings of a fixture that keep each
 object's own operations in order replay alike, and the state root's preimage determines the states.
 */
module Fixture {
  import opened Bytes
  import opened Order

  /** An operation; `request` is what is handed to the runtime, `wasm` is `None` when missing or not hex. */
  datatype Op =
    | Deploy(wasm: Option<Bytes>, objectId: Option<Str>, request: Bytes)
    | Call(callee: Option<Str>, request: Bytes)
    | Unknown

  /** The runtime: deterministic, may fail, reports the new state and the gas it used. */
  datatype Vm = Vm(codeHash: Bytes -> Str, deploy: (Bytes, Bytes) -> Option<(Bytes, nat)>,
                   execute: (Str, Bytes, Bytes, Bytes) -> Option<(Bytes, nat)>)

  datatype Entry = Entry(id: Str, state: Bytes, wasm: Bytes)

  const MAX_GAS: nat := 0xffff_ffff_ffff_ffff

  function AddGas(a: nat, b: nat): nat {
    if a + b > MAX_GAS then MAX_GAS else a + b
  }

  datatype Replay = Replay(objects: seq<Entry>, gas: nat)

  function Find(objects: seq<Entry>, id: Str): (i: nat)
    ensures i <= |objects| && (i < |objects| ==> objects[i].id == id) && forall j | 0 <= j < i :: objects[j].id != id
  {
    if objects == [] || objects[0].id == id then 0 else 1 + Find(objects[1..], id)
  }

  /** One turn of the replay loop. */
  function Step(vm: Vm, r: Replay, op: Op): Option<Replay> {
    match op
    case Unknown => None
    case Deploy(wasm, objectId, request) =>
      if wasm.None? then None
      else
        var id := if objectId.Some? then objectId.value else vm.codeHash(wasm.value);
        (match vm.deploy(wasm.value, request)
         case None => None
         case Some(res) => Some(Replay(r.objects + [Entry(id, res.0, wasm.value)], AddGas(r.gas, res.1))))
    case Call(callee, request) =>
      if callee.None? then None
      else
        var i := Find(r.objects, callee.value);
        if i == |r.objects| then None
        else
          var e := r.objects[i];
          match vm.execute(e.id, e.wasm, e.state, request)
          case None => None
          case Some(res) => Some(Replay(r.objects[i := e.(state := res.0)], AddGas(r.gas, res.1)))
  }

  function Run(vm: Vm, r: Replay, ops: seq<Op>): Option<Replay>
    decreases |ops|
  {
    if ops == [] then Some(r)
    else match Step(vm, r, ops[0]) case None => None case Some(r') => Run(vm, r', ops[1..])
  }

  /** Entry `i` is the first one with this id. */
  ghost predicate FirstWith(objects: seq<Entry>, id: Str, i: nat) {
    i < |objects| && objects[i].id == id && forall j | 0 <= j < i :: objects[j].id != id
  }

  /**
   A call runs on the first object with its id and replaces that object's state; without one, or if it fails, so does
   the replay.
   */
  lemma CallDecided(vm: Vm, r: Replay, id: Str, request: Bytes)
    ensures (forall i: nat :: !FirstWith(r.objects, id, i)) ==> Step(vm, r, Call(Some(id), request)) == None
    ensures forall i: nat | FirstWith(r.objects, id, i) ::
              var res := vm.execute(id, r.objects[i].wasm, r.objects[i].state, request);
              var after := Step(vm, r, Call(Some(id), request));
              && (after.Some? <==> res.Some?)
              && (after.Some? ==> after.value.objects == r.objects[i := Entry(id, res.value.0, r.objects[i].wasm)])
  {
    hide AddGas, Find;
    var i := Find(r.objects, id);
    if i < |r.objects| { assert FirstWith(r.objects, id, i); }
    forall k: nat | FirstWith(r.objects, id, k) ensures k == i {
    }
  }

  /** A deployment adds an object with the runtime's state and its code, under its own id or the code's hash. */
  lemma DeployDecided(vm: Vm, r: Replay, wasm: Bytes, objectId: Option<Str>, request: Bytes)
    ensures var (res, after) := (vm.deploy(wasm, request), Step(vm, r, Deploy(Some(wasm), objectId, request)));
            var id := if objectId.Some? then objectId.value else vm.codeHash(wasm);
            && (after.Some? <==> res.Some?)
            && (after.Some? ==> after.value.objects == r.objects + [Entry(id, res.value.0, wasm)])
  {
    hide AddGas;
  }

  // ----- one object at a time

  function IdOf(e: Entry): Bytes {
    e.id
  }

  /** The object an operation belongs to; operations without one get a key of their own. */
  function KeyOf(vm: Vm, op: Op): Bytes {
    match op
    case Unknown => []
    case Call(callee, _) => if callee.None? then [] else [1] + callee.value
    case Deploy(wasm, objectId, _) =>
      if wasm.None? then [] else [1] + (if objectId.Some? then objectId.value else vm.codeHash(wasm.value))
  }

  /** Two replay states that agree object by object. */
  ghost predicate Alike(r: Replay, t: Replay) {
    r.gas == t.gas && forall id: Bytes :: Group(r.objects, IdOf, id) == Group(t.objects, IdOf, id)
  }

  ghost predicate BothAlike(r: Option<Replay>, t: Option<Replay>) {
    r.Some? == t.Some? && (r.Some? ==> Alike(r.value, t.value))
  }

  lemma {:induction false} FindHead(objects: seq<Entry>, id: Str)
    ensures Find(objects, id) < |objects| <==> Group(objects, IdOf, id) != []
    ensures Find(objects, id) < |objects| ==> objects[Find(objects, id)] == Group(objects, IdOf, id)[0]
  {
    if objects != [] && objects[0].id != id { FindHead(objects[1..], id); }
  }

  /** Writing the first entry of an id changes the head of its group and no other group. */
  lemma {:induction false} GroupUpdate(objects: seq<Entry>, id: Str, e: Entry, k: Bytes)
    requires Find(objects, id) < |objects| && e.id == id
    ensures Group(objects, IdOf, id) != []
    ensures Group(objects[Find(objects, id) := e], IdOf, k) ==
            if k == id then Group(objects, IdOf, id)[0 := e] else Group(objects, IdOf, k)
  {
    var i := Find(objects, id);
    var written := objects[i := e];
    if objects[0].id == id {
      assert written[1..] == objects[1..];
    } else {
      GroupUpdate(objects[1..], id, e, k);
      assert written[1..] == objects[1..][i - 1 := e];
    }
  }

  lemma {:induction false} GroupPush(objects: seq<Entry>, e: Entry, k: Bytes)
    ensures Group(objects + [e], IdOf, k) == Group(objects, IdOf, k) + (if e.id == k then [e] else [])
  {
    if objects != [] {
      GroupPush(objects[1..], e, k);
      var head := if objects[0].id == k then [objects[0]] else [];
      var tail := if e.id == k then [e] else [];
      assert (objects + [e])[1..] == objects[1..] + [e];
      assert head + (Group(objects[1..], IdOf, k) + tail) == head + Group(objects[1..], IdOf, k) + tail;
    }
  }

  /** The id an operation works on. */
  function Target(vm: Vm, op: Op): Str
    requires KeyOf(vm, op) != []
  {
    match op
    case Unknown => []
    case Call(callee, _) => callee.value
    case Deploy(wasm, objectId, _) => if objectId.Some? then objectId.value else vm.codeHash(wasm.value)
  }

  /** What an operation does, seen from the group of its own object: the new group and the gas. */
  function Local(vm: Vm, group: seq<Entry>, op: Op): Option<(seq<Entry>, nat)> {
    match op
    case Unknown => None
    case Deploy(wasm, objectId, request) =>
      if wasm.None? then None
      else
        var id := if objectId.Some? then objectId.value else vm.codeHash(wasm.value);
        (match vm.deploy(wasm.value, request)
         case None => None
         case Some(res) => Some((group + [Entry(id, res.0, wasm.value)], res.1)))
    case Call(callee, request) =>
      if callee.None? || group == [] then None
      else
        match vm.execute(group[0].id, group[0].wasm, group[0].state, request)
        case None => None
        case Some(res) => Some((group[0 := group[0].(state := res.0)], res.1))
  }

  /** A step reads and writes only the group of its own object. */
  lemma StepIsLocal(vm: Vm, r: Replay, op: Op, k: Bytes)
    ensures KeyOf(vm, op) == [] ==> Step(vm, r, op).None?
    ensures KeyOf(vm, op) != [] ==>
              var id := Target(vm, op);
              var l := Local(vm, Group(r.objects, IdOf, id), op);
              && (Step(vm, r, op).Some? <==> l.Some?)
              && (l.Some? ==>
                    && Step(vm, r, op).value.gas == AddGas(r.gas, l.value.1)
                    && Group(Step(vm, r, op).value.objects, IdOf, k) ==
                       if k == id then l.value.0 else Group(r.objects, IdOf, k))
  {
    hide Group, Find, AddGas;
    if KeyOf(vm, op) != [] {
      var id := Target(vm, op);
      FindHead(r.objects, id);
      match op
      case Deploy(wasm, objectId, request) =>
        var res := vm.deploy(wasm.value, request);
        if res.Some? { GroupPush(r.objects, Entry(id, res.value.0, wasm.value), k); }
      case Call(callee, request) =>
        var i := Find(r.objects, id);
        if i < |r.objects| {
          var e := r.objects[i];
          var res := vm.execute(e.id, e.wasm, e.state, request);
          if res.Some? { GroupUpdate(r.objects, id, e.(state := res.value.0), k); }
        }
      case Unknown =>
    }
  }

  /** The gas the runtime reports for an operation that succeeds. */
  function GasOf(vm: Vm, r: Replay, op: Op): nat {
    if KeyOf(vm, op) == [] then 0
    else
      match Local(vm, Group(r.objects, IdOf, Target(vm, op)), op)
      case Some(l) => l.1
      case None => 0
  }

  /** The gas reported along a run, all of it. */
  function TotalGas(vm: Vm, r: Replay, ops: seq<Op>): nat
    decreases |ops|
  {
    if ops == [] || Step(vm, r, ops[0]).None? then 0
    else GasOf(vm, r, ops[0]) + TotalGas(vm, Step(vm, r, ops[0]).value, ops[1..])
  }

  /** A run's gas is what the runtime reported along it, capped at the largest u64 once and for all. */
  lemma {:induction false} GasIsCappedSum(vm: Vm, r: Replay, ops: seq<Op>)
    requires r.gas <= MAX_GAS && Run(vm, r, ops).Some?
    ensures var sum := r.gas + TotalGas(vm, r, ops);
            Run(vm, r, ops).value.gas == if sum <= 0xffff_ffff_ffff_ffff then sum else 0xffff_ffff_ffff_ffff
    decreases |ops|
  {
    hide Step, Group, Local, KeyOf, Target;
    if ops != [] {
      StepIsLocal(vm, r, ops[0], []);
      GasIsCappedSum(vm, Step(vm, r, ops[0]).value, ops[1..]);
    }
  }

  lemma StepAlike(vm: Vm, r: Replay, t: Replay, op: Op)
    requires Alike(r, t)
    ensures BothAlike(Step(vm, r, op), Step(vm, t, op))
  {
    hide Step, Group, Local, AddGas, KeyOf, Target;
    StepIsLocal(vm, r, op, []);
    StepIsLocal(vm, t, op, []);
    if Step(vm, r, op).Some? && Step(vm, t, op).Some? {
      forall k: Bytes
        ensures Group(Step(vm, r, op).value.objects, IdOf, k) == Group(Step(vm, t, op).value.objects, IdOf, k)
      {
        StepIsLocal(vm, r, op, k);
        StepIsLocal(vm, t, op, k);
      }
    }
  }

  lemma {:induction false} RunAlike(vm: Vm, r: Replay, t: Replay, ops: seq<Op>)
    requires Alike(r, t)
    ensures BothAlike(Run(vm, r, ops), Run(vm, t, ops))
    decreases |ops|
  {
    hide Step;
    if ops != [] {
      StepAlike(vm, r, t, ops[0]);
      if Step(vm, r, ops[0]).Some? {
        RunAlike(vm, Step(vm, r, ops[0]).value, Step(vm, t, ops[0]).value, ops[1..]);
      }
    }
  }

  function Then(vm: Vm, r: Option<Replay>, op: Op): Option<Replay> {
    if r.None? then None else Step(vm, r.value, op)
  }

  /** Operations on different objects commute. */
  lemma StepsCommute(vm: Vm, r: Replay, a: Op, b: Op)
    requires KeyOf(vm, a) != KeyOf(vm, b)
    ensures BothAlike(Then(vm, Step(vm, r, a), b), Then(vm, Step(vm, r, b), a))
  {
    hide Step, Group, Local, AddGas;
    var (ra, rb) := (Step(vm, r, a), Step(vm, r, b));
    forall k: Bytes
      ensures ra.Some? && rb.Some? && Then(vm, ra, b).Some? && Then(vm, rb, a).Some? ==>
                Group(Then(vm, ra, b).value.objects, IdOf, k) == Group(Then(vm, rb, a).value.objects, IdOf, k)
    {
      CommuteAt(vm, r, a, b, k);
    }
    CommuteAt(vm, r, a, b, []);
    GasCommutes(vm, r, a, b);
  }

  lemma CommuteAt(vm: Vm, r: Replay, a: Op, b: Op, k: Bytes)
    requires KeyOf(vm, a) != KeyOf(vm, b)
    ensures Then(vm, Step(vm, r, a), b).Some? <==> Then(vm, Step(vm, r, b), a).Some?
    ensures Then(vm, Step(vm, r, a), b).Some? ==>
              Group(Then(vm, Step(vm, r, a), b).value.objects, IdOf, k) ==
                Group(Then(vm, Step(vm, r, b), a).value.objects, IdOf, k)
  {
    hide Step, Group, Local, AddGas;
    var (ra, rb) := (Step(vm, r, a), Step(vm, r, b));
    if KeyOf(vm, a) != [] && KeyOf(vm, b) != [] {
      TargetsDiffer(vm, a, b);
      StepIsLocal(vm, r, a, k);
      StepIsLocal(vm, r, b, k);
      StepIsLocal(vm, r, a, Target(vm, b));
      StepIsLocal(vm, r, b, Target(vm, a));
      if ra.Some? { StepIsLocal(vm, ra.value, b, k); }
      if rb.Some? { StepIsLocal(vm, rb.value, a, k); }
    } else {
      StepIsLocal(vm, r, a, k);
      StepIsLocal(vm, r, b, k);
      if ra.Some? { StepIsLocal(vm, ra.value, b, k); }
      if rb.Some? { StepIsLocal(vm, rb.value, a, k); }
    }
  }

  lemma TargetsDiffer(vm: Vm, a: Op, b: Op)
    requires KeyOf(vm, a) != [] && KeyOf(vm, b) != [] && KeyOf(vm, a) != KeyOf(vm, b)
    ensures Target(vm, a) != Target(vm, b)
  {
    assert KeyOf(vm, a) == [1] + Target(vm, a) && KeyOf(vm, b) == [1] + Target(vm, b);
  }

  lemma GasCommutes(vm: Vm, r: Replay, a: Op, b: Op)
    requires KeyOf(vm, a) != KeyOf(vm, b)
    ensures Then(vm, Step(vm, r, a), b).Some? && Then(vm, Step(vm, r, b), a).Some? ==>
              Then(vm, Step(vm, r, a), b).value.gas == Then(vm, Step(vm, r, b), a).value.gas
  {
    hide Step, Group, Local;
    var (ra, rb) := (Step(vm, r, a), Step(vm, r, b));
    StepIsLocal(vm, r, a, []);
    StepIsLocal(vm, r, b, []);
    if KeyOf(vm, a) != [] && KeyOf(vm, b) != [] && ra.Some? && rb.Some? {
      TargetsDiffer(vm, a, b);
      StepIsLocal(vm, r, a, Target(vm, b));
      StepIsLocal(vm, r, b, Target(vm, a));
      StepIsLocal(vm, ra.value, b, []);
      StepIsLocal(vm, rb.value, a, []);
    }
  }

  // ----- interleavings

  /** An operation can be moved to the front past operations of other objects. */
  lemma {:induction false} MoveToFront(vm: Vm, r: Replay, pre: seq<Op>, a: Op, post: seq<Op>)
    requires forall i | 0 <= i < |pre| :: KeyOf(vm, pre[i]) != KeyOf(vm, a)
    ensures BothAlike(Run(vm, r, pre + [a] + post), Run(vm, r, [a] + pre + post))
    decreases |pre|
  {
    hide Step, KeyOf, Alike;
    if pre == [] {
      assert pre + [a] + post == [a] + pre + post;
      SameAlike(Run(vm, r, [a] + pre + post));
    } else {
      var b, rest := pre[0], pre[1..];
      assert (pre + [a] + post)[0] == b && (pre + [a] + post)[1..] == rest + [a] + post;
      assert ([a] + pre + post)[0] == a && ([a] + pre + post)[1..] == pre + post;
      assert (pre + post)[0] == b && (pre + post)[1..] == rest + post;
      StepsCommute(vm, r, b, a);
      var (ra, rb) := (Step(vm, r, a), Step(vm, r, b));
      if rb.Some? {
        MoveToFront(vm, rb.value, rest, a, post);
        assert ([a] + rest + post)[0] == a && ([a] + rest + post)[1..] == rest + post;
        var (ab, ba) := (Then(vm, ra, b), Then(vm, rb, a));
        if ba.Some? {
          assert Run(vm, ra.value, pre + post) == Run(vm, ab.value, rest + post);
          assert Run(vm, r, [a] + pre + post) == Run(vm, ra.value, pre + post);
          RunAlike(vm, ba.value, ab.value, rest + post);
          AlikeChain(Run(vm, r, pre + [a] + post), Run(vm, ba.value, rest + post), Run(vm, r, [a] + pre + post));
        }
      }
    }
  }

  lemma SameAlike(r: Option<Replay>)
    ensures BothAlike(r, r)
  {
  }

  lemma AlikeChain(a: Option<Replay>, b: Option<Replay>, c: Option<Replay>)
    requires BothAlike(a, b) && BothAlike(b, c)
    ensures BothAlike(a, c)
  {
    hide Group;
  }

  /** The first operation of `ops` with a given key. */
  lemma {:induction false} SplitAtKey(vm: Vm, ops: seq<Op>, k: Bytes) returns (pre: seq<Op>, a: Op, post: seq<Op>)
    requires Group(ops, (op: Op) => KeyOf(vm, op), k) != []
    ensures ops == pre + [a] + post && KeyOf(vm, a) == k
    ensures a == Group(ops, (op: Op) => KeyOf(vm, op), k)[0]
    ensures forall i | 0 <= i < |pre| :: KeyOf(vm, pre[i]) != k
  {
    hide KeyOf;
    if KeyOf(vm, ops[0]) == k {
      pre, a, post := [], ops[0], ops[1..];
    } else {
      pre, a, post := SplitAtKey(vm, ops[1..], k);
      pre := [ops[0]] + pre;
      assert ops == [ops[0]] + ops[1..];
    }
  }

  ghost predicate Interleaves(vm: Vm, xs: seq<Op>, ys: seq<Op>) {
    var key := (op: Op) => KeyOf(vm, op);
    forall k: Bytes :: Group(xs, key, k) == Group(ys, key, k)
  }

  /** Taking the first operation of an object out of both leaves an interleaving. */
  lemma DropFirst(vm: Vm, xs: seq<Op>, pre: seq<Op>, a: Op, post: seq<Op>)
    requires Interleaves(vm, [a] + xs, pre + [a] + post)
    requires forall i | 0 <= i < |pre| :: KeyOf(vm, pre[i]) != KeyOf(vm, a)
    ensures Interleaves(vm, xs, pre + post)
  {
    hide KeyOf, Group;
    var key := (op: Op) => KeyOf(vm, op);
    GroupAbsent(pre, key, key(a));
    forall k: Bytes ensures Group(xs, key, k) == Group(pre + post, key, k) {
      GroupAppend([a], xs, key, k);
      GroupAppend(pre + [a], post, key, k);
      GroupAppend(pre, [a], key, k);
      GroupAppend(pre, post, key, k);
      Singleton(a, key, k);
      var head := if key(a) == k then [a] else [];
      assert (head + Group(xs, key, k))[|head|..] == Group(xs, key, k);
      if key(a) == k {
        assert Group(pre, key, k) == [];
        assert ([] + [a] + Group(post, key, k))[1..] == Group(post, key, k);
      } else {
        assert Group(pre, key, k) + [] + Group(post, key, k) == Group(pre, key, k) + Group(post, key, k);
        assert [] + Group(xs, key, k) == Group(xs, key, k);
      }
    }
  }

  lemma Singleton<T>(a: T, key: T -> Bytes, k: Bytes)
    ensures Group([a], key, k) == if key(a) == k then [a] else []
  {
  }

  /** Interleavings replay alike: same success, same gas, same object histories. */
  lemma {:induction false} Confluence(vm: Vm, r: Replay, xs: seq<Op>, ys: seq<Op>)
    requires Interleaves(vm, xs, ys)
    ensures BothAlike(Run(vm, r, xs), Run(vm, r, ys))
    decreases |xs|
  {
    hide Step, KeyOf, Alike, Group;
    var key := (op: Op) => KeyOf(vm, op);
    if xs == [] {
      SomeGroup(ys, key);
      EmptyGroups(key);
      SameAlike(Run(vm, r, xs));
    } else {
      var a, rest := xs[0], xs[1..];
      HeadGroup(xs, key);
      var pre, b, post := SplitAtKey(vm, ys, key(a));
      assert b == a && xs == [a] + rest;
      DropFirst(vm, rest, pre, a, post);
      MoveToFront(vm, r, pre, a, post);
      assert ([a] + pre + post)[0] == a && ([a] + pre + post)[1..] == pre + post;
      if Step(vm, r, a).Some? {
        Confluence(vm, Step(vm, r, a).value, rest, pre + post);
        AlikeBack(Run(vm, r, ys), Run(vm, r, [a] + pre + post));
        AlikeChain(Run(vm, r, xs), Run(vm, r, [a] + pre + post), Run(vm, r, ys));
      }
    }
  }

  lemma AlikeBack(a: Option<Replay>, b: Option<Replay>)
    requires BothAlike(a, b)
    ensures BothAlike(b, a)
  {
    hide Group;
  }

  lemma HeadGroup<T>(xs: seq<T>, key: T -> Bytes)
    requires xs != []
    ensures Group(xs, key, key(xs[0])) != [] && Group(xs, key, key(xs[0]))[0] == xs[0]
  {
  }

  lemma EmptyGroups<T(!new)>(key: T -> Bytes)
    ensures forall k: Bytes :: Group([], key, k) == []
  {
  }

  // ----- the state root

  /** "UTXOVM_STATE_ROOT_V1" */
  const ROOT_TAG: Bytes := [85, 84, 88, 79, 86, 77, 95, 83, 84, 65, 84, 69, 95, 82, 79, 79, 84, 95, 86, 49]

  function Listing(states: seq<Entry>): Bytes {
    if states == [] then [] else Prefixed(states[0].id) + (Prefixed(states[0].state) + Listing(states[1..]))
  }

  /** SHA-256 over the tag and the length-prefixed ids and states, sorted by id. */
  function StateRoot(H: Hash, states: seq<Entry>): Digest {
    H(ROOT_TAG + Listing(Sort(states, IdOf)))
  }

  /** The hasher loop feeds the bytes piece by piece. */
  method ComputeFixtureStateRoot(H: Hash, states: seq<Entry>) returns (root: Digest)
    ensures root == StateRoot(H, states)
  {
    hide Prefixed, Sort;
    var sorted := Sort(states, IdOf);
    var fed := ROOT_TAG;
    for i := 0 to |sorted|
      invariant fed + Listing(sorted[i..]) == ROOT_TAG + Listing(sorted)
    {
      ghost var rest := Listing(sorted[i + 1..]);
      assert sorted[i..][0] == sorted[i] && sorted[i..][1..] == sorted[i + 1..];
      assert fed + (Prefixed(sorted[i].id) + (Prefixed(sorted[i].state) + rest)) ==
             fed + Prefixed(sorted[i].id) + Prefixed(sorted[i].state) + rest;
      fed := fed + Prefixed(sorted[i].id) + Prefixed(sorted[i].state);
    }
    assert sorted[|sorted|..] == [] && fed + [] == fed;
    root := H(fed);
  }

  /** Interleavings of one fixture have one state root. */
  lemma RootConfluence(H: Hash, vm: Vm, xs: seq<Op>, ys: seq<Op>)
    requires Interleaves(vm, xs, ys)
    ensures var (r, t) := (Run(vm, Replay([], 0), xs), Run(vm, Replay([], 0), ys));
            r.Some? == t.Some? &&
            (r.Some? ==> r.value.gas == t.value.gas && StateRoot(H, r.value.objects) == StateRoot(H, t.value.objects))
  {
    hide Run, Group;
    Confluence(vm, Replay([], 0), xs, ys);
    var (r, t) := (Run(vm, Replay([], 0), xs), Run(vm, Replay([], 0), ys));
    if r.Some? { SortByGroups(r.value.objects, t.value.objects, IdOf); }
  }

  ghost predicate Small(states: seq<Entry>) {
    forall i | 0 <= i < |states| :: |states[i].id| < TWO_32 && |states[i].state| < TWO_32
  }

  /** What the root says about an entry. */
  function Shown(e: Entry): (Str, Bytes) {
    (e.id, e.state)
  }

  lemma {:induction false} ListingInjective(xs: seq<Entry>, ys: seq<Entry>)
    requires Small(xs) && Small(ys) && Listing(xs) == Listing(ys)
    ensures |xs| == |ys| && forall i | 0 <= i < |xs| :: Shown(xs[i]) == Shown(ys[i])
  {
    hide Prefixed;
    ListingLength(xs);
    ListingLength(ys);
    if xs != [] && ys != [] {
      PrefixedInjective(xs[0].id, Prefixed(xs[0].state) + Listing(xs[1..]),
                        ys[0].id, Prefixed(ys[0].state) + Listing(ys[1..]));
      PrefixedInjective(xs[0].state, Listing(xs[1..]), ys[0].state, Listing(ys[1..]));
      ListingInjective(xs[1..], ys[1..]);
      assert forall i | 1 <= i < |xs| :: Shown(xs[i]) == Shown(xs[1..][i - 1]) == Shown(ys[1..][i - 1]) == Shown(ys[i]);
    }
  }

  lemma ListingLength(xs: seq<Entry>)
    ensures Listing(xs) == [] <==> xs == []
  {
    hide U32;
  }

  /** Two replays with one root show the same ids with the same states in sorted order, or the roots are a collision. */
  lemma RootBindsStates(H: Hash, xs: seq<Entry>, ys: seq<Entry>)
    requires Small(xs) && Small(ys) && StateRoot(H, xs) == StateRoot(H, ys)
    ensures var (s, t) := (Sort(xs, IdOf), Sort(ys, IdOf));
            || (|s| == |t| && forall i | 0 <= i < |s| :: Shown(s[i]) == Shown(t[i]))
            || Breaks(H, Collision(ROOT_TAG + Listing(s), ROOT_TAG + Listing(t)))
  {
    hide Listing, Sort;
    var (s, t) := (Sort(xs, IdOf), Sort(ys, IdOf));
    SortSmall(xs);
    SortSmall(ys);
    if ROOT_TAG + Listing(s) == ROOT_TAG + Listing(t) {
      FixedInjective(ROOT_TAG, Listing(s), ROOT_TAG, Listing(t));
      ListingInjective(s, t);
    }
  }

  lemma SortSmall(xs: seq<Entry>)
    requires Small(xs)
    ensures Small(Sort(xs, IdOf))
  {
    hide Sort;
    SortGroups(xs, IdOf, []);
    var s := Sort(xs, IdOf);
    forall i | 0 <= i < |s| ensures |s[i].id| < TWO_32 && |s[i].state| < TWO_32 {
      assert s[i] in multiset(s) && s[i] in multiset(xs);
    }
  }

  /** The replay loop. */
  method VerifyFixture(H: Hash, vm: Vm, ops: seq<Op>) returns (result: Option<(Digest, nat, nat)>)
    ensures var r := Run(vm, Replay([], 0), ops);
            result == if r.None? then None else Some((StateRoot(H, r.value.objects), |ops|, r.value.gas))
  {
    hide Step, StateRoot;
    var r := Replay([], 0);
    for i := 0 to |ops|
      invariant Run(vm, Replay([], 0), ops) == Run(vm, r, ops[i..])
    {
      assert ops[i..][0] == ops[i] && ops[i..][1..] == ops[i + 1..];
      var next := Step(vm, r, ops[i]);
      if next.None? { return None; }
      r := next.value;
    }
    assert ops[|ops|..] == [];
    var root := ComputeFixtureStateRoot(H, r.objects);
    return Some((root, |ops|, r.gas));
  }
}
