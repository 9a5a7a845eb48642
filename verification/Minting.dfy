/**
 When a lock and a mint succeed, over any run of bridge calls and restarts: what the caller must be, what the
 verifier must have said, and what the replay guard remembers.
 */
module Minting {
  import opened Bytes
  import opened Ledger
  import opened Store
  import opened Bridge

  // ----- who may lock

  /** A lock succeeds exactly when its signer is the owner of an object that is not under a lock. */
  lemma LockDecided(db: Db, calls: seq<Call>, i: nat)
    requires i < |calls| && calls[i].Lock?
    ensures var (before, r) := (After(db, calls[..i]).db, calls[i].lock);
            OutcomeOf(db, calls, i).LockedFor? <==>
            r.objectId in before.objects && r.signed && r.caller == before.objects[r.objectId].owner &&
            !(LOCK_PREFIX <= before.objects[r.objectId].owner)
  {
    hide SaveObject, After, SetTransfer, LockedTransfer;
  }

  /** While a locked object is left alone, nobody locks it again. */
  lemma LockedOnce(db: Db, calls: seq<Call>, i: nat, j: nat)
    requires i < j < |calls| && OutcomeOf(db, calls, i).LockedFor? && calls[j].Lock?
    requires calls[j].lock.objectId == OutcomeOf(db, calls, i).transfer.sourceObjectId
    requires var lock := OutcomeOf(db, calls, i);
             && Indexed(After(db, calls[..i]).db, lock.transfer.sourceObjectId)
             && LeftAlone(db, calls, i, j, lock.transfer.sourceObjectId, lock.source.seal)
    ensures OutcomeOf(db, calls, j) == Refused
  {
    hide *;
    var lock := OutcomeOf(db, calls, i);
    LockRun(db, calls, i);
    LockRun(db, calls, j);
    AfterSnoc(db, calls, i);
    LockOpens(After(db, calls[..i]), calls[i]);
    LockedRecord(After(db, calls[..i]), calls[i]);
    AlikeBetween(db, calls, i, j, lock.transfer.sourceObjectId, lock.source.seal);
    SameRecord(After(db, calls[..i + 1]).db, After(db, calls[..j]).db, lock.transfer.sourceObjectId, lock.source.seal);
    LockRefused(After(db, calls[..j]), calls[j], lock.source);
  }

  lemma LockRefused(s: State, call: Call, source: Object)
    requires call.Lock? && Get(s.db.objects, call.lock.objectId) == Some(source.(owner := LOCK_PREFIX + source.owner))
    ensures Do(s, call).1 == Refused
  {
    StripInverts(source.owner, LOCK_PREFIX);
  }

  // ----- the replay guard

  /** The transfer named by the first mint call for an object, whatever became of that call. */
  function FirstClaim(calls: seq<Call>, id: Str): Option<Str> {
    if calls == [] then None
    else
      var init, last := calls[..|calls| - 1], calls[|calls| - 1];
      if FirstClaim(init, id).Some? then FirstClaim(init, id)
      else if last.Mint? && last.mint.objectId == id then Some(last.mint.transferId)
      else None
  }

  function Claim(s: State, id: Str): Option<Str> {
    if id in s.minted then Some(s.minted[id]) else None
  }

  lemma DoClaims(s: State, call: Call, id: Str)
    requires Synced(s)
    ensures Claim(Do(s, call).0, id) ==
            if Claim(s, id).None? && call.Mint? && call.mint.objectId == id then Some(call.mint.transferId)
            else Claim(s, id)
  {
    hide SaveObject, Unlocked, StripPrefix, LockAllowed, TransferId, MintedObject;
  }

  /** The guard of an object holds the first transfer under which it was claimed, over any run. */
  lemma {:induction false} GuardIsFirstClaim(db: Db, calls: seq<Call>, id: Str)
    ensures Claim(After(db, calls), id) == FirstClaim(calls, id)
  {
    hide Do;
    if calls != [] {
      var init, last := calls[..|calls| - 1], calls[|calls| - 1];
      GuardIsFirstClaim(db, init, id);
      AlwaysSynced(db, init);
      DoClaims(After(db, init), last, id);
    }
  }

  // ----- when a mint succeeds

  /** A mint means a valid proof and a failed one means an invalid proof, at every call of every run. */
  lemma VerdictDecides(db: Db, calls: seq<Call>, j: nat)
    requires j < |calls|
    ensures OutcomeOf(db, calls, j).MintedBy? ==> calls[j].Mint? && calls[j].mint.valid
    ensures OutcomeOf(db, calls, j).ProofFailed? ==> calls[j].Mint? && !calls[j].mint.valid
  {
    hide SaveObject, Unlocked, StripPrefix, LockAllowed, TransferId, MintedObject, After;
  }

  /** No other transfer claimed the object of call `j` first, and the transfer of lock `i` was not minted since. */
  ghost predicate Open(db: Db, calls: seq<Call>, i: nat, j: nat)
    requires i < j < |calls| && OutcomeOf(db, calls, i).LockedFor? && calls[j].Mint?
  {
    && (forall k | i < k < j :: !Mints(OutcomeOf(db, calls, k), OutcomeOf(db, calls, i).transfer.id))
    && (FirstClaim(calls[..j], calls[j].mint.objectId).Some? ==>
          FirstClaim(calls[..j], calls[j].mint.objectId) == Some(calls[j].mint.transferId))
  }

  /**
   A mint for a transfer locked earlier succeeds if and only if it is open, the proof is valid and the proof names
   the object and the chain of the lock. It counts as a failed proof if and only if it is open and the proof is not
   valid; then, and when it is refused, nothing is minted.
   */
  lemma MintDecided(db: Db, calls: seq<Call>, i: nat, j: nat)
    requires i < j < |calls| && FreshIds(db, calls) && calls[j].Mint?
    requires OutcomeOf(db, calls, i).LockedFor? && calls[j].mint.transferId == OutcomeOf(db, calls, i).transfer.id
    ensures calls[i].Lock?
    ensures var (asked, r) := (calls[i].lock, calls[j].mint);
            OutcomeOf(db, calls, j).MintedBy? <==>
            Open(db, calls, i, j) && r.valid && r.objectId == asked.objectId && r.sourceChain == asked.sourceChain
    ensures OutcomeOf(db, calls, j).ProofFailed? <==> Open(db, calls, i, j) && !calls[j].mint.valid
  {
    hide *;
    var t := OutcomeOf(db, calls, i).transfer;
    var last := After(db, calls[..j]);
    LockRun(db, calls, i);
    LockRun(db, calls, j);
    LockRecords(After(db, calls[..i]), calls[i]);
    TransferBetween(db, calls, i, j);
    AlwaysSynced(db, calls[..j]);
    GuardIsFirstClaim(db, calls[..j], calls[j].mint.objectId);
    OpenMeans(db, calls, i, j);
    MintDecidedBy(last, calls[j], t);
  }

  lemma OpenMeans(db: Db, calls: seq<Call>, i: nat, j: nat)
    requires i < j < |calls| && OutcomeOf(db, calls, i).LockedFor? && calls[j].Mint?
    ensures Open(db, calls, i, j) <==>
            && !(exists k :: i < k < j && Mints(OutcomeOf(db, calls, k), OutcomeOf(db, calls, i).transfer.id))
            && (FirstClaim(calls[..j], calls[j].mint.objectId).Some? ==>
                  FirstClaim(calls[..j], calls[j].mint.objectId) == Some(calls[j].mint.transferId))
  {
    hide OutcomeOf, Mints, FirstClaim;
  }

  lemma MintDecidedBy(s: State, call: Call, t: BridgeTransfer)
    requires Synced(s) && call.Mint? && t.id == call.mint.transferId && t.id in s.transfers
    requires Terms(s.transfers[t.id]) == Terms(t)
    ensures var (r, claim) := (call.mint, Claim(s, call.mint.objectId));
            var open := !Done(s.transfers[t.id]) && (claim.Some? ==> claim == Some(r.transferId));
            && (Do(s, call).1.MintedBy? <==>
                open && r.valid && r.objectId == t.sourceObjectId && r.sourceChain == t.sourceChain)
            && (Do(s, call).1.ProofFailed? <==> open && !r.valid)
  {
    hide SaveObject, Unlocked, StripPrefix, MintedObject;
  }
}
