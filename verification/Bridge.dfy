/**
 The lock / mint / cancel protocol of `cross_chain/bridge.rs`, with its persisted replay guard and
 the in-memory caches that a restart rehydrates. Clock readings and ECDSA verdicts are inputs.
 */
module Bridge {
  import opened Bytes
  import opened Ledger
  import opened Store
  import Consensus
  import Verifier

  const RECLAIM_TIMEOUT_SECS: int := 3600

  /** "bridge_locked:" */
  const LOCK_PREFIX: Str := [98, 114, 105, 100, 103, 101, 95, 108, 111, 99, 107, 101, 100, 58]
  /** "bridge_" */
  const BRIDGE: Str := [98, 114, 105, 100, 103, 101, 95]
  /** "_" */
  const UNDERSCORE: Str := [95]

  function StripPrefix(s: Str, prefix: Str): Option<Str> {
    if |prefix| <= |s| && s[..|prefix|] == prefix then Some(s[|prefix|..]) else None
  }

  lemma StripInverts(s: Str, prefix: Str)
    ensures StripPrefix(prefix + s, prefix) == Some(s)
  {
    assert (prefix + s)[..|prefix|] == prefix && (prefix + s)[|prefix|..] == s;
  }

  /** The bridge's tables, and the caches kept beside them. */
  datatype State = State(db: Db, transfers: map<Str, BridgeTransfer>, minted: map<Str, Str>,
                         cachedTransfers: map<Str, BridgeTransfer>, cachedMinted: map<Str, Str>)

  /** A lock request; `signed` is the verdict on the caller's signature, `stamp` the decimal clock reading. */
  datatype LockRequest = LockRequest(sourceChain: Str, objectId: Str, destChain: Str, destOwner: Str, caller: Str,
                                     signed: bool, now: int, stamp: Str)

  /** A mint request; `valid` is the verifier's verdict and `codeHash` is read from the object data. */
  datatype MintRequest = MintRequest(transferId: Str, objectId: Str, sourceChain: Str, objectData: Bytes, codeHash: Str,
                                     valid: bool, now: int, stamp: Str)

  datatype CancelRequest = CancelRequest(transferId: Str, caller: Str, signed: bool, now: int)

  datatype Call = Lock(lock: LockRequest) | Mint(mint: MintRequest) | Cancel(cancel: CancelRequest) | Restart

  datatype Outcome =
    | Refused
    | LockedFor(transfer: BridgeTransfer, source: Object)
    | ProofFailed(transfer: BridgeTransfer)
    | MintedBy(transfer: BridgeTransfer, minted: Object)
    | CancelledBy(transfer: BridgeTransfer)
    | Restarted

  function TransferId(r: LockRequest): Str {
    r.sourceChain + UNDERSCORE + r.destChain + UNDERSCORE + r.objectId + UNDERSCORE + r.stamp
  }

  function LockedTransfer(r: LockRequest, obj: Object): BridgeTransfer {
    BridgeTransfer(TransferId(r), r.sourceChain, r.objectId, r.destChain, r.destOwner, obj.satoshis, Locked,
                   r.now, None)
  }

  predicate LockAllowed(db: Db, r: LockRequest) {
    r.objectId in db.objects && StripPrefix(db.objects[r.objectId].owner, LOCK_PREFIX).None? &&
    r.caller == db.objects[r.objectId].owner && r.signed
  }

  function SetTransfer(s: State, t: BridgeTransfer): State {
    s.(transfers := s.transfers[t.id := t], cachedTransfers := s.cachedTransfers[t.id := t])
  }

  function DoLock(s: State, r: LockRequest): (State, Outcome) {
    if !LockAllowed(s.db, r) then (s, Refused)
    else
      var obj := s.db.objects[r.objectId];
      var t := LockedTransfer(r, obj);
      (SetTransfer(s.(db := SaveObject(s.db, obj.(owner := LOCK_PREFIX + obj.owner))), t), LockedFor(t, obj))
  }

  /** Take the lock prefix off the source object's owner, if it is there. */
  function Unlocked(db: Db, t: BridgeTransfer): Db {
    if t.sourceObjectId !in db.objects then db
    else
      var obj := db.objects[t.sourceObjectId];
      match StripPrefix(obj.owner, LOCK_PREFIX)
      case None => db
      case Some(owner) => SaveObject(db, obj.(owner := owner))
  }

  predicate Done(t: BridgeTransfer) {
    t.status == Completed || t.status == Minted
  }

  function MintedObject(r: MintRequest, t: BridgeTransfer): Object {
    Object(BRIDGE + r.transferId + UNDERSCORE + r.stamp, r.codeHash, BRIDGE + r.transferId + [58, 48], t.amount,
           t.destOwner, r.objectData, 0, 0)
  }

  /** The replay guard refuses: another transfer minted this object, or this one is done. */
  predicate Replayed(s: State, objectId: Str, transferId: Str) {
    objectId in s.minted &&
    (s.minted[objectId] != transferId || (transferId in s.cachedTransfers && Done(s.cachedTransfers[transferId])))
  }

  /** The replay guard set, in the table and in the cache. */
  function Guarded(s: State, objectId: Str, transferId: Str): State {
    s.(minted := if objectId in s.minted then s.minted else s.minted[objectId := transferId],
       cachedMinted := s.cachedMinted[objectId := transferId])
  }

  function DoMint(s: State, r: MintRequest): (State, Outcome) {
    if Replayed(s, r.objectId, r.transferId) then (s, Refused)
    else
      var guarded := Guarded(s, r.objectId, r.transferId);
      if r.transferId !in s.cachedTransfers || Done(s.cachedTransfers[r.transferId]) then (guarded, Refused)
      else
        var t := s.cachedTransfers[r.transferId];
        if !r.valid then
          var failed := t.(status := Failed);
          (SetTransfer(guarded, failed).(db := Unlocked(s.db, failed)), ProofFailed(failed))
        else if r.objectId != t.sourceObjectId || r.sourceChain != t.sourceChain then (guarded, Refused)
        else
          var done := t.(status := Minted, completedAt := Some(r.now));
          var obj := MintedObject(r, t);
          (SetTransfer(guarded, done).(db := SaveObject(s.db, obj)), MintedBy(done, obj))
  }

  /** The owner behind a possible lock prefix. */
  function OriginalOwner(obj: Object): Str {
    match StripPrefix(obj.owner, LOCK_PREFIX)
    case Some(owner) => owner
    case None => obj.owner
  }

  predicate CancelAllowed(s: State, r: CancelRequest) {
    r.transferId in s.cachedTransfers &&
    var t := s.cachedTransfers[r.transferId];
    (t.status == Pending || t.status == Locked) && r.now - t.createdAt >= RECLAIM_TIMEOUT_SECS &&
    t.sourceObjectId in s.db.objects && r.caller == OriginalOwner(s.db.objects[t.sourceObjectId]) && r.signed
  }

  function DoCancel(s: State, r: CancelRequest): (State, Outcome) {
    if !CancelAllowed(s, r) then (s, Refused)
    else
      var t := s.cachedTransfers[r.transferId].(status := Failed, completedAt := Some(r.now));
      (SetTransfer(s.(db := Unlocked(s.db, t)), t), CancelledBy(t))
  }

  function Do(s: State, call: Call): (State, Outcome) {
    match call
    case Lock(r) => DoLock(s, r)
    case Mint(r) => DoMint(s, r)
    case Cancel(r) => DoCancel(s, r)
    case Restart => (s.(cachedTransfers := s.transfers, cachedMinted := s.minted), Restarted)
  }

  // ----- whole runs

  function Start(db: Db): State {
    State(db, map[], map[], map[], map[])
  }

  function After(db: Db, calls: seq<Call>): State {
    if calls == [] then Start(db) else Do(After(db, calls[..|calls| - 1]), calls[|calls| - 1]).0
  }

  function OutcomeOf(db: Db, calls: seq<Call>, i: nat): Outcome
    requires i < |calls|
  {
    Do(After(db, calls[..i]), calls[i]).1
  }

  /** Transfer ids carry the clock: a lock never reuses one. */
  ghost predicate FreshIds(db: Db, calls: seq<Call>) {
    forall i | 0 <= i < |calls| && calls[i].Lock? && LockAllowed(After(db, calls[..i]).db, calls[i].lock) ::
      TransferId(calls[i].lock) !in After(db, calls[..i]).transfers
  }

  ghost predicate Synced(s: State) {
    && s.cachedTransfers == s.transfers && s.cachedMinted == s.minted
    && forall id | id in s.transfers :: s.transfers[id].id == id
  }

  /** The caches always equal the tables. */
  lemma DoSynced(s: State, call: Call)
    requires Synced(s)
    ensures Synced(Do(s, call).0)
  {
    hide SaveObject, Unlocked, StripPrefix, MintedObject;
    if call.Mint? {
      var id := call.mint.objectId;
      assert id in s.minted ==> s.minted == s.minted[id := s.minted[id]];
    }
  }

  lemma {:induction false} AlwaysSynced(db: Db, calls: seq<Call>)
    ensures Synced(After(db, calls))
  {
    hide Do;
    if calls != [] {
      AlwaysSynced(db, calls[..|calls| - 1]);
      DoSynced(After(db, calls[..|calls| - 1]), calls[|calls| - 1]);
    }
  }

  /** Transfer `t`, seen at some point, is minted and guarded in `s`. */
  ghost predicate Settled(s: State, t: BridgeTransfer) {
    && t.status == Minted && t.id in s.transfers && s.transfers[t.id] == t
    && t.sourceObjectId in s.minted && s.minted[t.sourceObjectId] == t.id
  }

  lemma MintSettles(s: State, r: MintRequest)
    requires Synced(s) && DoMint(s, r).1.MintedBy?
    ensures Settled(DoMint(s, r).0, DoMint(s, r).1.transfer)
    ensures !exists t :: Settled(s, t) && t.sourceObjectId == r.objectId
    ensures DoMint(s, r).1.transfer.sourceObjectId == r.objectId
  {
    hide SaveObject, Unlocked, StripPrefix;
  }

  /** No call takes a minted transfer out of that state or clears its guard. */
  lemma SettledStays(s: State, call: Call, t: BridgeTransfer)
    requires Synced(s) && Settled(s, t)
    requires call.Lock? && LockAllowed(s.db, call.lock) ==> TransferId(call.lock) !in s.transfers
    ensures Settled(Do(s, call).0, t)
  {
    hide SaveObject, Unlocked, StripPrefix, LockAllowed, TransferId;
  }

  lemma {:induction false} SettledAfter(db: Db, calls: seq<Call>, i: nat)
    requires i < |calls| && FreshIds(db, calls) && OutcomeOf(db, calls, i).MintedBy?
    ensures Settled(After(db, calls), OutcomeOf(db, calls, i).transfer)
    decreases |calls|
  {
    hide Do, LockAllowed, Settled;
    var init, last := calls[..|calls| - 1], calls[|calls| - 1];
    AlwaysSynced(db, init);
    assert init[..i] == calls[..i];
    if i == |calls| - 1 {
      MintOnly(After(db, init), last);
    } else {
      FreshBelow(db, calls, |calls| - 1);
      assert OutcomeOf(db, init, i) == OutcomeOf(db, calls, i);
      SettledAfter(db, init, i);
      assert calls[|calls| - 1] == last && calls[..|calls| - 1] == init;
      SettledStays(After(db, init), last, OutcomeOf(db, calls, i).transfer);
    }
  }

  lemma MintOnly(s: State, call: Call)
    requires Synced(s) && Do(s, call).1.MintedBy?
    ensures call.Mint? && Settled(Do(s, call).0, Do(s, call).1.transfer)
  {
    hide SaveObject, Unlocked, StripPrefix, Settled;
    if call.Mint? { MintSettles(s, call.mint); }
  }

  /** Over any run, restarts included, each source object is minted at most once. */
  lemma MintedAtMostOnce(db: Db, calls: seq<Call>, i: nat, j: nat)
    requires i < j < |calls| && FreshIds(db, calls)
    requires OutcomeOf(db, calls, i).MintedBy? && OutcomeOf(db, calls, j).MintedBy?
    ensures OutcomeOf(db, calls, i).transfer.sourceObjectId != OutcomeOf(db, calls, j).transfer.sourceObjectId
  {
    hide Do, LockAllowed, Settled;
    var before := calls[..j];
    assert before[..i] == calls[..i];
    FreshBelow(db, calls, j);
    SettledAfter(db, before, i);
    AlwaysSynced(db, before);
    SecondMint(After(db, before), calls[j], OutcomeOf(db, calls, i).transfer);
  }

  lemma FreshBelow(db: Db, calls: seq<Call>, j: nat)
    requires j <= |calls| && FreshIds(db, calls)
    ensures FreshIds(db, calls[..j])
  {
    hide Do, LockAllowed;
    var init := calls[..j];
    forall i | 0 <= i < |init| && init[i].Lock? && LockAllowed(After(db, init[..i]).db, init[i].lock)
      ensures TransferId(init[i].lock) !in After(db, init[..i]).transfers
    {
      assert init[..i] == calls[..i] && init[i] == calls[i];
    }
  }

  lemma SecondMint(s: State, call: Call, t: BridgeTransfer)
    requires Synced(s) && Settled(s, t) && Do(s, call).1.MintedBy?
    ensures Do(s, call).1.transfer.sourceObjectId != t.sourceObjectId
  {
    hide SaveObject, Unlocked, StripPrefix, Settled;
    if call.Mint? { MintSettles(s, call.mint); }
  }

  // ----- what a mint carries

  /** The parts of a transfer fixed when it is locked. */
  function Terms(t: BridgeTransfer): BridgeTransfer {
    t.(status := Pending, completedAt := None)
  }

  /** Transfer `t` was opened by call `i`. */
  ghost predicate OpenedBy(db: Db, calls: seq<Call>, i: nat, t: BridgeTransfer) {
    i < |calls| && OutcomeOf(db, calls, i).LockedFor? && Terms(OutcomeOf(db, calls, i).transfer) == Terms(t)
  }

  lemma DoTerms(s: State, call: Call, id: Str)
    requires Synced(s) && id in Do(s, call).0.transfers
    ensures var t := Do(s, call).0.transfers[id];
            (id in s.transfers && Terms(t) == Terms(s.transfers[id])) ||
            (Do(s, call).1.LockedFor? && Do(s, call).1.transfer == t)
  {
    hide SaveObject, Unlocked, StripPrefix, LockAllowed, TransferId;
  }

  lemma {:induction false} EveryTransferOpened(db: Db, calls: seq<Call>, id: Str)
    requires id in After(db, calls).transfers
    ensures exists i: nat :: OpenedBy(db, calls, i, After(db, calls).transfers[id])
  {
    hide Do;
    if calls != [] {
      var init, last := calls[..|calls| - 1], calls[|calls| - 1];
      var s := After(db, init);
      AlwaysSynced(db, init);
      DoTerms(s, last, id);
      if id in s.transfers && Terms(After(db, calls).transfers[id]) == Terms(s.transfers[id]) {
        EveryTransferOpened(db, init, id);
        var i: nat :| OpenedBy(db, init, i, s.transfers[id]);
        assert init[..i] == calls[..i];
        assert OpenedBy(db, calls, i, After(db, calls).transfers[id]);
      } else {
        assert calls[..|calls| - 1] == init;
        assert OpenedBy(db, calls, |calls| - 1, After(db, calls).transfers[id]);
      }
    }
  }

  /**
   A mint names the object and chain of an earlier lock. The new object carries the satoshis the source held then,
   belongs to the owner the lock named, and holds the data the proof came with.
   */
  lemma MintCarriesLock(db: Db, calls: seq<Call>, j: nat)
    requires j < |calls| && OutcomeOf(db, calls, j).MintedBy?
    ensures exists i: nat ::
              i < j && OutcomeOf(db, calls, i).LockedFor? && calls[i].Lock? && calls[j].Mint? &&
              var (lock, mint) := (OutcomeOf(db, calls, i), OutcomeOf(db, calls, j));
              var (asked, r) := (calls[i].lock, calls[j].mint);
              && lock.transfer.id == mint.transfer.id == r.transferId
              && r.objectId == asked.objectId && r.sourceChain == asked.sourceChain
              && Get(After(db, calls[..i]).db.objects, asked.objectId) == Some(lock.source)
              && mint.minted.satoshis == lock.source.satoshis && mint.minted.owner == asked.destOwner
              && mint.minted.state == r.objectData && mint.minted.codeHash == r.codeHash
              && mint.minted.id == BRIDGE + r.transferId + UNDERSCORE + r.stamp
              && mint.minted.seal == BRIDGE + r.transferId + [58, 48]
              && After(db, calls[..j + 1]).db == SaveObject(After(db, calls[..j]).db, mint.minted)
  {
    hide Do;
    var before := calls[..j];
    AlwaysSynced(db, before);
    var s := After(db, before);
    MintFrom(s, calls[j]);
    AfterSnoc(db, calls, j);
    var id := OutcomeOf(db, calls, j).transfer.id;
    EveryTransferOpened(db, before, id);
    var i: nat :| OpenedBy(db, before, i, s.transfers[id]);
    assert before[..i] == calls[..i] && before[i] == calls[i];
    LockRecords(After(db, calls[..i]), calls[i]);
  }

  lemma MintFrom(s: State, call: Call)
    requires Synced(s) && Do(s, call).1.MintedBy?
    ensures var m := Do(s, call).1;
            && m.transfer.id in s.transfers && Terms(m.transfer) == Terms(s.transfers[m.transfer.id])
            && m.minted.satoshis == m.transfer.amount && m.minted.owner == m.transfer.destOwner
            && call.Mint? && call.mint.transferId == m.transfer.id && call.mint.objectId == m.transfer.sourceObjectId
            && call.mint.sourceChain == m.transfer.sourceChain
            && m.minted.state == call.mint.objectData && m.minted.codeHash == call.mint.codeHash
            && m.minted.id == BRIDGE + call.mint.transferId + UNDERSCORE + call.mint.stamp
            && m.minted.seal == BRIDGE + call.mint.transferId + [58, 48]
            && Do(s, call).0.db == SaveObject(s.db, m.minted)
  {
    hide SaveObject, Unlocked, StripPrefix;
  }

  lemma LockRecords(s: State, call: Call)
    requires Do(s, call).1.LockedFor?
    ensures var l := Do(s, call).1;
            l.transfer.sourceObjectId in s.db.objects && l.source == s.db.objects[l.transfer.sourceObjectId] &&
            l.transfer.amount == l.source.satoshis && call.Lock? && l.transfer.sourceObjectId == call.lock.objectId &&
            l.transfer.sourceChain == call.lock.sourceChain && l.transfer.destOwner == call.lock.destOwner
  {
    hide SaveObject, Unlocked, StripPrefix;
  }

  // ----- reclaiming

  /** Object `id` sits under its own id and its seal leads back to it. */
  ghost predicate Indexed(db: Db, id: Str) {
    id in db.objects && db.objects[id].id == id && db.objects[id].seal in db.seals &&
    db.seals[db.objects[id].seal] == id
  }

  lemma CoherentIndexed(db: Db, id: Str)
    requires Coherent(db.objects, db.seals) && id in db.objects
    ensures Indexed(db, id)
  {
  }

  /** The record of object `id` and the entry of `seal` are the same in both. */
  ghost predicate Alike(a: Db, b: Db, id: Str, seal: Str) {
    && Get(a.objects, id) == Get(b.objects, id)
    && (seal in a.seals <==> seal in b.seals) && (seal in a.seals ==> a.seals[seal] == b.seals[seal])
  }

  /** No call strictly between `i` and `j` changes object `id` or the entry of its seal. */
  ghost predicate LeftAlone(db: Db, calls: seq<Call>, i: nat, j: nat, id: Str, seal: Str)
    requires j <= |calls|
  {
    forall k | i < k < j :: Alike(After(db, calls[..k]).db, After(db, calls[..k + 1]).db, id, seal)
  }

  lemma AfterSnoc(db: Db, calls: seq<Call>, k: nat)
    requires k < |calls|
    ensures After(db, calls[..k + 1]) == Do(After(db, calls[..k]), calls[k]).0
  {
    assert calls[..k + 1][..k] == calls[..k];
  }

  lemma {:induction false} AlikeBetween(db: Db, calls: seq<Call>, i: nat, j: nat, id: Str, seal: Str)
    requires i < j <= |calls| && LeftAlone(db, calls, i, j, id, seal)
    ensures Alike(After(db, calls[..i + 1]).db, After(db, calls[..j]).db, id, seal)
    decreases j
  {
    hide After;
    if i + 1 < j {
      AlikeBetween(db, calls, i, j - 1, id, seal);
      assert Alike(After(db, calls[..j - 1]).db, After(db, calls[..j - 1 + 1]).db, id, seal);
    }
  }

  /** The calls that write object `id`, or another object under its seal. */
  predicate Writes(outcome: Outcome, id: Str, seal: Str) {
    match outcome
    case LockedFor(t, _) => t.sourceObjectId == id
    case ProofFailed(t) => t.sourceObjectId == id
    case CancelledBy(t) => t.sourceObjectId == id
    case MintedBy(_, obj) => obj.id == id || obj.seal == seal
    case _ => false
  }

  /** Every other call leaves the object and its seal entry alone. */
  lemma OthersLeaveAlone(s: State, call: Call, id: Str)
    requires Synced(s) && Coherent(s.db.objects, s.db.seals) && id in s.db.objects
    requires !Writes(Do(s, call).1, id, s.db.objects[id].seal)
    ensures Alike(s.db, Do(s, call).0.db, id, s.db.objects[id].seal)
  {
    hide StripPrefix, MintedObject, TransferId, SaveObject, Unlocked, Coherent, Alike, Get;
    forall obj: Object | obj.id != id && obj.seal != s.db.objects[id].seal
      ensures Alike(s.db, SaveObject(s.db, obj), id, s.db.objects[id].seal)
    {
      SaveAlike(s.db, obj, id);
    }
    forall t: BridgeTransfer | t.sourceObjectId != id
      ensures Alike(s.db, Unlocked(s.db, t), id, s.db.objects[id].seal)
    {
      UnlockAlike(s.db, t, id);
    }
    forall other | other in s.db.objects && other != id
      ensures s.db.objects[other].id == other && s.db.objects[other].seal != s.db.objects[id].seal
    {
      SealsDiffer(s.db, id, other);
    }
    AlikeSelf(s.db, id, s.db.objects[id].seal);
  }

  lemma AlikeSelf(db: Db, id: Str, seal: Str)
    ensures Alike(db, db, id, seal)
  {
  }

  lemma SealsDiffer(db: Db, id: Str, other: Str)
    requires Coherent(db.objects, db.seals) && id in db.objects && other in db.objects && other != id
    ensures db.objects[other].id == other && db.objects[other].seal != db.objects[id].seal
  {
  }

  lemma SaveAlike(db: Db, obj: Object, id: Str)
    requires Coherent(db.objects, db.seals) && id in db.objects && obj.id != id && obj.seal != db.objects[id].seal
    ensures Alike(db, SaveObject(db, obj), id, db.objects[id].seal)
  {
    if obj.id in db.objects { SealsDiffer(db, id, obj.id); }
  }

  lemma UnlockAlike(db: Db, t: BridgeTransfer, id: Str)
    requires Coherent(db.objects, db.seals) && id in db.objects && t.sourceObjectId != id
    ensures Alike(db, Unlocked(db, t), id, db.objects[id].seal)
  {
    hide Coherent, StripPrefix, SaveObject, Alike;
    AlikeSelf(db, id, db.objects[id].seal);
    if t.sourceObjectId in db.objects {
      SealsDiffer(db, id, t.sourceObjectId);
      forall owner: Str
        ensures Alike(db, SaveObject(db, db.objects[t.sourceObjectId].(owner := owner)), id, db.objects[id].seal)
      {
        SaveAlike(db, db.objects[t.sourceObjectId].(owner := owner), id);
      }
    }
  }

  /** A call that ends the transfer `id` as failed or minted. */
  predicate Ends(outcome: Outcome, id: Str) {
    (outcome.ProofFailed? || outcome.MintedBy? || outcome.CancelledBy?) && outcome.transfer.id == id
  }

  predicate Mints(outcome: Outcome, id: Str) {
    outcome.MintedBy? && outcome.transfer.id == id
  }

  /** A call keeps the terms of every other transfer, and a locked one stays locked until a call ends it. */
  lemma DoKeepsTransfer(s: State, call: Call, id: Str)
    requires Synced(s) && id in s.transfers
    requires call.Lock? && LockAllowed(s.db, call.lock) ==> TransferId(call.lock) !in s.transfers
    ensures var s' := Do(s, call).0;
            && id in s'.transfers && Terms(s'.transfers[id]) == Terms(s.transfers[id])
            && (s'.transfers[id].status == Locked <==> s.transfers[id].status == Locked && !Ends(Do(s, call).1, id))
            && (s.transfers[id].status != Pending ==> s'.transfers[id].status != Pending)
            && (Done(s'.transfers[id]) <==> Done(s.transfers[id]) || Mints(Do(s, call).1, id))
  {
    hide SaveObject, Unlocked, StripPrefix, LockAllowed, TransferId, MintedObject;
  }

  /** From its lock on a transfer keeps its terms, and it is still locked exactly while no call has ended it. */
  lemma {:induction false} TransferBetween(db: Db, calls: seq<Call>, i: nat, j: nat)
    requires i < j <= |calls| && FreshIds(db, calls) && OutcomeOf(db, calls, i).LockedFor?
    ensures var (t, now) := (OutcomeOf(db, calls, i).transfer, After(db, calls[..j]).transfers);
            && t.id in now && Terms(now[t.id]) == Terms(t) && now[t.id].status != Pending
            && (now[t.id].status == Locked <==> forall k | i < k < j :: !Ends(OutcomeOf(db, calls, k), t.id))
            && (Done(now[t.id]) <==> exists k :: i < k < j && Mints(OutcomeOf(db, calls, k), t.id))
    decreases j
  {
    hide Do, LockAllowed, After, Terms, Ends, Mints;
    if i + 1 == j {
      AfterSnoc(db, calls, i);
      LockOpens(After(db, calls[..i]), calls[i]);
    } else {
      TransferBetween(db, calls, i, j - 1);
      AfterSnoc(db, calls, j - 1);
      AlwaysSynced(db, calls[..j - 1]);
      var id := OutcomeOf(db, calls, i).transfer.id;
      DoKeepsTransfer(After(db, calls[..j - 1]), calls[j - 1], id);
      assert OutcomeOf(db, calls, j - 1) == Do(After(db, calls[..j - 1]), calls[j - 1]).1;
    }
  }

  lemma LockOpens(s: State, call: Call)
    requires Do(s, call).1.LockedFor?
    ensures var t := Do(s, call).1.transfer;
            && t.status == Locked && t.id in Do(s, call).0.transfers && Do(s, call).0.transfers[t.id] == t
            && call.Lock? && LockAllowed(s.db, call.lock) && t == LockedTransfer(call.lock, Do(s, call).1.source)
            && t.sourceObjectId in s.db.objects && Do(s, call).1.source == s.db.objects[t.sourceObjectId]
  {
    hide SaveObject, Unlocked, StripPrefix, MintedObject;
  }

  lemma LockedRecord(s: State, call: Call)
    requires Do(s, call).1.LockedFor? && Indexed(s.db, Do(s, call).1.transfer.sourceObjectId)
    ensures var (l, after) := (Do(s, call).1, Do(s, call).0.db);
            && Get(after.objects, l.transfer.sourceObjectId) == Some(l.source.(owner := LOCK_PREFIX + l.source.owner))
            && l.source.seal in after.seals && after.seals[l.source.seal] == l.transfer.sourceObjectId
  {
    hide StripPrefix, MintedObject, Unlocked;
  }

  predicate Reclaims(outcome: Outcome) {
    outcome.ProofFailed? || outcome.CancelledBy?
  }

  lemma ReclaimNames(outcome: Outcome)
    requires Reclaims(outcome)
    ensures outcome.ProofFailed? || outcome.CancelledBy?
  {
  }

  lemma ReclaimUnlocks(s: State, call: Call)
    requires Synced(s) && Reclaims(Do(s, call).1)
    ensures var t := Do(s, call).1.transfer;
            && t.id in s.transfers && Terms(t) == Terms(s.transfers[t.id]) && Do(s, call).0.db == Unlocked(s.db, t)
  {
    hide SaveObject, Unlocked, StripPrefix, MintedObject;
  }

  lemma UnlockedRecord(db: Db, t: BridgeTransfer, source: Object)
    requires Get(db.objects, t.sourceObjectId) == Some(source.(owner := LOCK_PREFIX + source.owner))
    requires source.id == t.sourceObjectId && source.seal in db.seals && db.seals[source.seal] == source.id
    ensures Unlocked(db, t) == db.(objects := db.objects[source.id := source])
  {
    StripInverts(source.owner, LOCK_PREFIX);
    assert db.seals[source.seal := source.id] == db.seals;
  }

  /**
   A lock and, any number of calls and restarts later, its reclaim by a failed proof or a cancel. If no call in
   between touched the object, the object's record and its seal entry are what they were before the lock, and
   the reclaim changes nothing else; so if the other objects are as they were, then so is the root.
   */
  lemma ReclaimInverts(db: Db, calls: seq<Call>, i: nat, j: nat)
    requires i < j < |calls| && FreshIds(db, calls)
    requires OutcomeOf(db, calls, i).LockedFor? && Reclaims(OutcomeOf(db, calls, j))
    requires OutcomeOf(db, calls, j).transfer.id == OutcomeOf(db, calls, i).transfer.id
    requires var lock := OutcomeOf(db, calls, i);
             && Indexed(After(db, calls[..i]).db, lock.transfer.sourceObjectId)
             && LeftAlone(db, calls, i, j, lock.transfer.sourceObjectId, lock.source.seal)
    ensures var (lock, id) := (OutcomeOf(db, calls, i), OutcomeOf(db, calls, i).transfer.sourceObjectId);
            var (before, last, end) := (After(db, calls[..i]).db, After(db, calls[..j]).db,
                                        After(db, calls[..j + 1]).db);
            && Alike(before, end, id, lock.source.seal)
            && end == last.(objects := last.objects[id := lock.source])
            && (last.objects - {id} == before.objects - {id} ==>
                  end.objects == before.objects && forall H :: RootOf(H, end.objects) == RootOf(H, before.objects))
  {
    hide *;
    var lock := OutcomeOf(db, calls, i);
    var (t, id) := (lock.transfer, lock.transfer.sourceObjectId);
    var (first, last) := (After(db, calls[..i]), After(db, calls[..j]));
    LockRun(db, calls, i);
    AfterSnoc(db, calls, i);
    AfterSnoc(db, calls, j);
    LockOpens(first, calls[i]);
    LockedRecord(first, calls[i]);
    AlikeBetween(db, calls, i, j, id, lock.source.seal);
    TransferBetween(db, calls, i, j);
    AlwaysSynced(db, calls[..j]);
    LockRun(db, calls, j);
    ReclaimNames(OutcomeOf(db, calls, j));
    ReclaimUnlocks(last, calls[j]);
    SameTerms(OutcomeOf(db, calls, j).transfer, t, last.transfers[t.id]);
    Restored(first.db, After(db, calls[..i + 1]).db, last.db, OutcomeOf(db, calls, j).transfer, lock.source);
  }

  lemma LockRun(db: Db, calls: seq<Call>, i: nat)
    requires i < |calls|
    ensures OutcomeOf(db, calls, i) == Do(After(db, calls[..i]), calls[i]).1
  {
  }

  lemma SameTerms(a: BridgeTransfer, b: BridgeTransfer, c: BridgeTransfer)
    requires Terms(a) == Terms(c) && Terms(c) == Terms(b)
    ensures a.sourceObjectId == b.sourceObjectId && a.createdAt == b.createdAt
  {
  }

  lemma Restored(before: Db, locked: Db, last: Db, t: BridgeTransfer, source: Object)
    requires Indexed(before, t.sourceObjectId) && source == before.objects[t.sourceObjectId]
    requires Get(locked.objects, t.sourceObjectId) == Some(source.(owner := LOCK_PREFIX + source.owner))
    requires source.seal in locked.seals && locked.seals[source.seal] == t.sourceObjectId
    requires Alike(locked, last, t.sourceObjectId, source.seal)
    ensures var (id, end) := (t.sourceObjectId, Unlocked(last, t));
            && Alike(before, end, id, source.seal)
            && end == last.(objects := last.objects[id := source])
            && (last.objects - {id} == before.objects - {id} ==>
                  end.objects == before.objects && forall H :: RootOf(H, end.objects) == RootOf(H, before.objects))
  {
    hide Unlocked, RootOf;
    UnlockedRecord(last, t, source);
    var id := t.sourceObjectId;
    if last.objects - {id} == before.objects - {id} {
      assert last.objects[id := source] == (before.objects - {id})[id := source] == before.objects;
    }
  }

  /**
   While its object is left alone, a cancel of a transfer succeeds if and only if the timeout has passed since the
   lock, the owner who locked it signs, and no call in between has ended the transfer.
   */
  lemma CancelSucceeds(db: Db, calls: seq<Call>, i: nat, j: nat)
    requires i < j < |calls| && FreshIds(db, calls)
    requires OutcomeOf(db, calls, i).LockedFor? && calls[j].Cancel?
    requires calls[j].cancel.transferId == OutcomeOf(db, calls, i).transfer.id
    requires var lock := OutcomeOf(db, calls, i);
             && Indexed(After(db, calls[..i]).db, lock.transfer.sourceObjectId)
             && LeftAlone(db, calls, i, j, lock.transfer.sourceObjectId, lock.source.seal)
    ensures calls[i].Lock?
    ensures var (asked, c) := (calls[i].lock, calls[j].cancel);
            OutcomeOf(db, calls, j).CancelledBy? <==>
            && c.now - asked.now >= RECLAIM_TIMEOUT_SECS && c.caller == asked.caller && c.signed
            && forall k | i < k < j :: !Ends(OutcomeOf(db, calls, k), OutcomeOf(db, calls, i).transfer.id)
  {
    hide *;
    var lock := OutcomeOf(db, calls, i);
    var (t, id) := (lock.transfer, lock.transfer.sourceObjectId);
    var (first, last) := (After(db, calls[..i]), After(db, calls[..j]));
    LockRun(db, calls, i);
    AfterSnoc(db, calls, i);
    LockOpens(first, calls[i]);
    LockedRecord(first, calls[i]);
    AlikeBetween(db, calls, i, j, id, lock.source.seal);
    TransferBetween(db, calls, i, j);
    AlwaysSynced(db, calls[..j]);
    LockRun(db, calls, j);
    SameRecord(After(db, calls[..i + 1]).db, last.db, id, lock.source.seal);
    SameTerms(t, t, last.transfers[t.id]);
    LockAsked(first, calls[i]);
    CancelDecided(last, calls[j], t, lock.source);
  }

  lemma LockAsked(s: State, call: Call)
    requires Do(s, call).1.LockedFor?
    ensures call.Lock? && Do(s, call).1.transfer.createdAt == call.lock.now &&
            Do(s, call).1.source.owner == call.lock.caller
  {
    hide SaveObject, Unlocked, StripPrefix, MintedObject;
  }

  lemma SameRecord(a: Db, b: Db, id: Str, seal: Str)
    requires Alike(a, b, id, seal)
    ensures Get(a.objects, id) == Get(b.objects, id)
  {
  }

  lemma CancelDecided(s: State, call: Call, t: BridgeTransfer, source: Object)
    requires Synced(s) && call.Cancel? && t.id == call.cancel.transferId && t.id in s.transfers
    requires Terms(s.transfers[t.id]) == Terms(t)
    requires s.transfers[t.id].status != Pending
    requires Get(s.db.objects, t.sourceObjectId) == Some(source.(owner := LOCK_PREFIX + source.owner))
    ensures Do(s, call).1.CancelledBy? <==>
            && call.cancel.now - t.createdAt >= RECLAIM_TIMEOUT_SECS && call.cancel.caller == source.owner
            && call.cancel.signed && s.transfers[t.id].status == Locked
  {
    hide SaveObject, Unlocked, StripPrefix;
    StripInverts(source.owner, LOCK_PREFIX);
  }

  // ----- the manager object

  class BridgeManager {
    const consensus: Consensus.ConsensusManager
    const store: StateStore
    var transfers: map<Str, BridgeTransfer>
    var mintedObjects: map<Str, Str>

    ghost function Abstract(): State
      reads this, store
    {
      State(store.Tables(), store.bridgeTransfers, store.mintedProofs, transfers, mintedObjects)
    }

    ghost predicate Ready()
      reads this, store, store.smt
    {
      store.Valid() && Synced(Abstract())
    }

    /** Rehydrating the caches from the tables is exactly a restart. */
    constructor (consensus: Consensus.ConsensusManager, store: StateStore)
      requires forall id | id in store.bridgeTransfers :: store.bridgeTransfers[id].id == id
      ensures this.consensus == consensus && this.store == store
      ensures transfers == store.bridgeTransfers && mintedObjects == store.mintedProofs
    {
      var loaded: map<Str, BridgeTransfer> := map[];
      var rest := store.bridgeTransfers.Keys;
      while rest != {}
        invariant rest <= store.bridgeTransfers.Keys && loaded == store.bridgeTransfers - rest
        decreases rest
      {
        var id :| id in rest;
        var t := store.bridgeTransfers[id];
        loaded := loaded[t.id := t];
        rest := rest - {id};
      }
      this.consensus, this.store := consensus, store;
      transfers := loaded;
      mintedObjects := store.mintedProofs;
    }

    method UpdateTransfer(t: BridgeTransfer)
      modifies this`transfers, store`bridgeTransfers
      ensures old(store.Valid()) ==> store.Valid()
      ensures Abstract() == SetTransfer(old(Abstract()), t)
    {
      hide StateStore.Valid;
      transfers := transfers[t.id := t];
      store.SaveBridgeTransfer(t);
    }

    method UnlockObject(t: BridgeTransfer)
      requires store.Valid()
      modifies store`objects, store`seals, store.smt
      ensures store.Valid() && Abstract() == old(Abstract()).(db := Unlocked(old(store.Tables()), t))
    {
      hide SaveObject, StripPrefix, Distinct, LeavesOf;
      if t.sourceObjectId !in store.objects { return; }
      var obj := store.objects[t.sourceObjectId];
      var owner := StripPrefix(obj.owner, LOCK_PREFIX);
      if owner.Some? {
        store.SaveObject(obj.(owner := owner.value));
      }
    }

    method LockAssets(r: LockRequest) returns (outcome: Outcome)
      requires Ready()
      modifies this`transfers, store`bridgeTransfers, store`objects, store`seals, store.smt
      ensures Ready() && (Abstract(), outcome) == Do(old(Abstract()), Lock(r))
    {
      hide SaveObject, StripPrefix, Distinct, LeavesOf, Synced, TransferId;
      DoSynced(Abstract(), Lock(r));
      if r.objectId !in store.objects { return Refused; }
      var obj := store.objects[r.objectId];
      if StripPrefix(obj.owner, LOCK_PREFIX).Some? { return Refused; }
      if r.caller != obj.owner { return Refused; }
      if !r.signed { return Refused; }
      var t := LockedTransfer(r, obj);
      store.SaveObject(obj.(owner := LOCK_PREFIX + obj.owner));
      store.SaveBridgeTransfer(t);
      transfers := transfers[t.id := t];
      return LockedFor(t, obj);
    }

    /** The request a call amounts to once its proof has been judged. */
    ghost function Judged(transferId: Str, proof: Verifier.Proof, codeHash: Str, now: int, stamp: Str): MintRequest
      reads consensus
    {
      MintRequest(transferId, proof.objectId, proof.sourceChain, proof.objectData, codeHash,
                  Verifier.ValidProof(consensus.crypto, consensus.validators, proof), now, stamp)
    }

    /** The atomic check-and-insert of the replay guard. */
    method Guard(objectId: Str, transferId: Str) returns (refused: bool)
      modifies this`mintedObjects, store`mintedProofs
      ensures old(store.Valid()) ==> store.Valid()
      ensures refused == Replayed(old(Abstract()), objectId, transferId)
      ensures Abstract() == if refused then old(Abstract()) else Guarded(old(Abstract()), objectId, transferId)
    {
      hide StateStore.Valid;
      var inserted := store.CheckAndInsertMintedProof(objectId, transferId);
      if !inserted {
        if store.mintedProofs[objectId] != transferId { return true; }
        if transferId in transfers && Done(transfers[transferId]) { return true; }
      }
      mintedObjects := mintedObjects[objectId := transferId];
      return false;
    }

    method MintFromProof(transferId: Str, proof: Verifier.Proof, codeHash: Str, now: int, stamp: Str)
      returns (outcome: Outcome)
      requires Ready() && BRIDGE + transferId + UNDERSCORE + stamp in store.universe
      modifies this`transfers, this`mintedObjects, store`bridgeTransfers, store`mintedProofs, store`objects,
               store`seals, store.smt
      ensures Ready() && (Abstract(), outcome) ==
              Do(old(Abstract()), Mint(Judged(transferId, proof, codeHash, now, stamp)))
      ensures outcome.MintedBy? ==> Verifier.ValidProof(consensus.crypto, consensus.validators, proof)
      ensures outcome.ProofFailed? ==> !Verifier.ValidProof(consensus.crypto, consensus.validators, proof)
    {
      hide SaveObject, Synced, Unlocked, Verifier.ValidProof, StateStore.Valid, MintedObject, Replayed, Guarded;
      ghost var before, r := Abstract(), Judged(transferId, proof, codeHash, now, stamp);
      DoSynced(before, Mint(r));
      var refused := Guard(proof.objectId, transferId);
      if refused { return Refused; }
      GuardedTransfers(before, proof.objectId, transferId);
      if transferId !in transfers { return Refused; }
      var t := transfers[transferId];
      if Done(t) { return Refused; }
      KeyedById(before, transferId);
      var valid := Verifier.VerifyProof(consensus.crypto, consensus.validators, proof);
      if !valid {
        t := t.(status := Failed);
        UpdateTransfer(t);
        UnlockObject(t);
        return ProofFailed(t);
      }
      if proof.objectId != t.sourceObjectId { return Refused; }
      if proof.sourceChain != t.sourceChain { return Refused; }
      outcome := Settle(t, r, transferId, proof.objectData, codeHash, now, stamp);
    }

    /** The last leg of a mint: verified, object saved, minted. */
    method Settle(t: BridgeTransfer, ghost r: MintRequest, transferId: Str, objectData: Bytes, codeHash: Str, now: int,
                  stamp: Str)
      returns (outcome: Outcome)
      requires store.Valid() && BRIDGE + transferId + UNDERSCORE + stamp in store.universe
      requires r.transferId == transferId && r.objectData == objectData && r.codeHash == codeHash && r.now == now &&
               r.stamp == stamp
      modifies this`transfers, store`bridgeTransfers, store`objects, store`seals, store.smt
      ensures store.Valid()
      ensures var done := t.(status := Minted, completedAt := Some(now));
              outcome == MintedBy(done, MintedObject(r, t)) &&
              Abstract() ==
              SetTransfer(old(Abstract()), done).(db := SaveObject(old(store.Tables()), MintedObject(r, t)))
    {
      hide SaveObject, StateStore.Valid;
      UpdateTransfer(t.(status := Verified));
      var obj := Object(BRIDGE + transferId + UNDERSCORE + stamp, codeHash, BRIDGE + transferId + [58, 48], t.amount,
                        t.destOwner, objectData, 0, 0);
      assert obj == MintedObject(r, t) && obj.id in store.universe;
      hide MintedObject;
      store.SaveObject(obj);
      var done := t.(status := Minted, completedAt := Some(now));
      UpdateTransfer(done);
      return MintedBy(done, obj);
    }

    method CancelTransfer(r: CancelRequest) returns (outcome: Outcome)
      requires Ready()
      modifies this`transfers, store`bridgeTransfers, store`objects, store`seals, store.smt
      ensures Ready() && (Abstract(), outcome) == Do(old(Abstract()), Cancel(r))
    {
      hide SaveObject, StripPrefix, Synced, Unlocked, StateStore.Valid;
      DoSynced(Abstract(), Cancel(r));
      if r.transferId !in transfers { return Refused; }
      var t := transfers[r.transferId];
      KeyedById(Abstract(), r.transferId);
      if t.status != Pending && t.status != Locked { return Refused; }
      if r.now - t.createdAt < RECLAIM_TIMEOUT_SECS { return Refused; }
      if t.sourceObjectId !in store.objects { return Refused; }
      if r.caller != OriginalOwner(store.objects[t.sourceObjectId]) { return Refused; }
      if !r.signed { return Refused; }
      t := t.(status := Failed, completedAt := Some(r.now));
      UnlockObject(t);
      UpdateTransfer(t);
      return CancelledBy(t);
    }
  }

  lemma GuardedTransfers(s: State, objectId: Str, transferId: Str)
    ensures Guarded(s, objectId, transferId).cachedTransfers == s.cachedTransfers &&
            Guarded(s, objectId, transferId).db == s.db
  {
  }

  lemma KeyedById(s: State, id: Str)
    requires Synced(s) && id in s.cachedTransfers
    ensures s.cachedTransfers[id].id == id
  {
  }
}
