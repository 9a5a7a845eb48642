/**
 When a rollback is exact. The undo table is sorted by height alone, so two records of one object in one block
 are applied by id. Whether that restores the object can be read off the undo table before the rollback.
 */
module Exactness {
  import opened Bytes
  import opened Ledger
  import opened Scanner
  import opened Reorg

  /** The record a rollback to `t` applies last to an object holds a version written at or below `t`. */
  ghost predicate FinalsDated(undo: map<nat, Undo>, chain: Str, t: nat) {
    forall id, j | Final(undo, chain, t, id, j) && undo[j].prev.Some? :: undo[j].prev.value.updatedAt <= t
  }

  /** What is dated at or below `t`, in the objects or in a record above `t`, is the object as of `t`. */
  ghost predicate Dated(chain: Str, base: Db, db: Db, t: nat) {
    && (forall id | id in base.objects :: id in db.objects && base.objects[id].updatedAt <= t)
    && (forall id | id in db.objects && db.objects[id].updatedAt <= t :: Get(base.objects, id) == Some(db.objects[id]))
    && (forall j | j in Above(db.undo, chain, t) :: DatedRecord(base, db.undo[j], t))
  }

  ghost predicate DatedRecord(base: Db, u: Undo, t: nat) {
    (u.prev.Some? ==> u.prev.value.updatedAt <= t) ==> u.prev == Get(base.objects, u.objectId)
  }

  lemma StepDated(env: Env, base: Db, db: Db, seen: set<Str>, tx: Tx, h: nat, t: nat)
    requires |tx.txid| == 64 && Inv(env, db, seen, h) && FreshTx(env, db, seen, tx, h) && t < h &&
             Dated(env.chain, base, db, t)
    ensures Dated(env.chain, base, Step(env, db, tx, h), t)
  {
    hide TxEffect, Apply, Holds, Coherent, SealsOwned, DatedRecord;
    var e := TxEffect(env, db, tx, h);
    var db' := Apply(db, e);
    ApplyNothing(db);
    if e.Wrote? {
      EffectIsShaped(env, db, tx, h);
      forall id: Str
        ensures Get(db'.objects, id) == if e.obj.Some? && id == e.undo.objectId then e.obj else Get(db.objects, id)
      {
        ApplyGet(db, e, id);
      }
      ApplyGet(db, e, e.undo.objectId);
      RecordDated(env.chain, base, db, e.undo, t);
      forall id | id in base.objects ensures id in db'.objects {
        assert id in db.objects && Get(db'.objects, id).Some?;
      }
      forall id | id in db'.objects && db'.objects[id].updatedAt <= t
        ensures Get(base.objects, id) == Some(db'.objects[id])
      {
        assert Get(db'.objects, id) == Get(db.objects, id);
      }
      forall j | j in Above(db'.undo, env.chain, t) ensures DatedRecord(base, db'.undo[j], t) {
        assert j != e.undoId ==> j in Above(db.undo, env.chain, t);
      }
    }
  }

  /** A record of an object as it stands is dated if the object is. */
  lemma RecordDated(chain: Str, base: Db, db: Db, u: Undo, t: nat)
    requires Dated(chain, base, db, t) && u.prev == Get(db.objects, u.objectId)
    ensures DatedRecord(base, u, t)
  {
  }

  lemma {:induction false} TxsDated(env: Env, base: Db, db: Db, seen: set<Str>, txs: seq<Tx>, h: nat, t: nat)
    requires WellFormed(txs) && FreshTxs(env, db, seen, txs, h) && t < h && Dated(env.chain, base, db, t)
    requires Inv(env, db, seen, h) && (forall j | j in db.undo :: db.undo[j].height < h)
    ensures Dated(env.chain, base, ScanTxs(env, db, txs, h), t)
  {
    hide Inv, During, TopsExact, Step, FreshTx, Dated;
    if txs != [] {
      var init, tx := txs[..|txs| - 1], txs[|txs| - 1];
      TxsDated(env, base, db, seen, init, h, t);
      TxsKeep(env, db, seen, init, h);
      StepDated(env, base, ScanTxs(env, db, init, h), seen + TxIds(init), tx, h, t);
    }
  }

  // ----- no object is dated after the last scanned block

  ghost predicate Current(db: Db, h: nat) {
    forall id | id in db.objects :: db.objects[id].updatedAt <= h
  }

  lemma StepCurrent(env: Env, db: Db, tx: Tx, h: nat)
    requires |tx.txid| == 64 && Coherent(db.objects, db.seals) && Current(db, h)
    ensures Current(Step(env, db, tx, h), h)
  {
    hide TxEffect, Apply, Coherent;
    var e := TxEffect(env, db, tx, h);
    var db' := Apply(db, e);
    ApplyNothing(db);
    if e.Wrote? {
      EffectIsShaped(env, db, tx, h);
      forall id | id in db'.objects ensures db'.objects[id].updatedAt <= h {
        ApplyGet(db, e, id);
      }
    }
  }

  lemma {:induction false} TxsCurrent(env: Env, db: Db, seen: set<Str>, txs: seq<Tx>, h: nat)
    requires WellFormed(txs) && FreshTxs(env, db, seen, txs, h) && Current(db, h)
    requires Inv(env, db, seen, h) && (forall j | j in db.undo :: db.undo[j].height < h)
    ensures Current(ScanTxs(env, db, txs, h), h)
  {
    hide Inv, During, TopsExact, Step, FreshTx, Current;
    if txs != [] {
      var init := txs[..|txs| - 1];
      TxsCurrent(env, db, seen, init, h);
      TxsKeep(env, db, seen, init, h);
      InvCoherent(env, ScanTxs(env, db, init, h), seen + TxIds(init), h);
      StepCurrent(env, ScanTxs(env, db, init, h), txs[|txs| - 1], h);
    }
  }

  lemma InvCoherent(env: Env, db: Db, seen: set<Str>, h: nat)
    requires Inv(env, db, seen, h)
    ensures Coherent(db.objects, db.seals) && forall j | j in db.undo :: db.undo[j].height <= h
  {
    hide Coherent, SealsOwned, Holds;
  }

  lemma {:induction false} ScanCurrent(env: Env, first: nat, l1: Chain, n: nat)
    requires WellFormedChain(l1) && n < |l1| && FreshChain(env, first, l1, n)
    ensures Current(Scan(env, first, l1, n), n)
  {
    hide Inv, ScanTxs, FreshTxs, RootOf;
    if n >= first && n > 0 {
      var db0, seen := Scan(env, first, l1, n - 1), Seen(first, l1, n - 1);
      ScanCurrent(env, first, l1, n - 1);
      ScanInv(env, first, l1, n - 1);
      InvMonotone(env, db0, seen, n - 1, n);
      InvCoherent(env, db0, seen, n - 1);
      TxsCurrent(env, db0, seen, l1[n].txs, n);
    }
  }

  lemma {:induction false} ScanDated(env: Env, first: nat, l1: Chain, t: nat, n: nat)
    requires WellFormedChain(l1) && t <= n < |l1| && FreshChain(env, first, l1, n) && first <= t && t > 0
    ensures Dated(env.chain, Scan(env, first, l1, t), Scan(env, first, l1, n), t)
    decreases n
  {
    hide Inv, Scan, FreshChain, Dated, Current;
    if t == n {
      ScanCurrent(env, first, l1, t);
      ScanInv(env, first, l1, t);
      InvCoherent(env, Scan(env, first, l1, t), Seen(first, l1, t), t);
      SelfDated(env.chain, Scan(env, first, l1, t), t);
    } else {
      var base, db0, seen := Scan(env, first, l1, t), Scan(env, first, l1, n - 1), Seen(first, l1, n - 1);
      FreshAt(env, first, l1, n);
      ScanDated(env, first, l1, t, n - 1);
      ScanInv(env, first, l1, n - 1);
      InvMonotone(env, db0, seen, n - 1, n);
      InvCoherent(env, db0, seen, n - 1);
      TxsDated(env, base, db0, seen, l1[n].txs, n, t);
      CloseDated(env, first, l1, base, n, t);
    }
  }

  lemma SelfDated(chain: Str, db: Db, t: nat)
    requires Current(db, t) && forall j | j in db.undo :: db.undo[j].height <= t
    ensures Dated(chain, db, db, t)
  {
  }

  lemma CloseDated(env: Env, first: nat, l1: Chain, base: Db, n: nat, t: nat)
    requires WellFormedChain(l1) && 0 < n < |l1| && first <= n
    requires Dated(env.chain, base, ScanTxs(env, Scan(env, first, l1, n - 1), l1[n].txs, n), t)
    ensures Dated(env.chain, base, Scan(env, first, l1, n), t)
  {
    hide ScanTxs, RootOf, DatedRecord;
  }

  // ----- the exact condition

  /**
   Rolling a scanned chain back to `t` gives the tables of the scan to `t` if and only if, for every object, the
   lowest and then highest-numbered undo record above `t` is a creation or holds a version dated at or below `t`.
   */
  lemma RollbackExactIff(env: Env, first: nat, l1: Chain, t: nat, n: nat, db': Db)
    requires WellFormedChain(l1) && t <= n < |l1| && FreshChain(env, first, l1, n) && first <= t && t > 0
    requires RolledBack(Scan(env, first, l1, n), env.chain, t, db')
    ensures db' == Scan(env, first, l1, t) <==> FinalsDated(Scan(env, first, l1, n).undo, env.chain, t)
  {
    hide *;
    RollbackByFinals(env, first, l1, t, n, db');
    ScanDated(env, first, l1, t, n);
    DatesDecide(env, Scan(env, first, l1, t), Scan(env, first, l1, n), t);
  }

  lemma DatesDecide(env: Env, base: Db, db: Db, t: nat)
    requires Dated(env.chain, base, db, t)
    ensures FinalsExact(env, base, db, t) <==> FinalsDated(db.undo, env.chain, t)
  {
    hide Before;
    if FinalsDated(db.undo, env.chain, t) {
      forall id, j | Final(db.undo, env.chain, t, id, j) ensures db.undo[j].prev == Get(base.objects, id) {
        assert DatedRecord(base, db.undo[j], t);
      }
    }
  }

  /** The undo table of the scan to `n` allows an exact rollback to every scanned height. */
  ghost predicate Undoable(env: Env, first: nat, l1: Chain, n: nat)
    requires WellFormedChain(l1) && n < |l1|
  {
    forall t | first <= t < n :: FinalsDated(Scan(env, first, l1, n).undo, env.chain, t)
  }

  /** Ordered undo ids are enough for that. */
  lemma OrderedUndoable(env: Env, first: nat, l1: Chain, n: nat)
    requires WellFormedChain(l1) && n < |l1| && first > 0
    requires FreshChain(env, first, l1, n) && OrderedChain(env, first, l1, n)
    ensures Undoable(env, first, l1, n)
  {
    hide Scan, FreshChain, OrderedChain, FinalsExact, FinalsDated, Dated, Extends;
    forall t | first <= t < n ensures FinalsDated(Scan(env, first, l1, n).undo, env.chain, t) {
      ScanExtends(env, first, l1, t, n);
      ScanDated(env, first, l1, t, n);
      DatesDecide(env, Scan(env, first, l1, t), Scan(env, first, l1, n), t);
    }
  }

  lemma UndoableExact(env: Env, first: nat, l1: Chain, t: nat, n: nat, db': Db)
    requires WellFormedChain(l1) && t < n < |l1| && FreshChain(env, first, l1, n) && first <= t && t > 0
    requires Undoable(env, first, l1, n) && RolledBack(Scan(env, first, l1, n), env.chain, t, db')
    ensures db' == Scan(env, first, l1, t)
  {
    hide Scan, FreshChain, RolledBack, FinalsDated;
    RollbackExactIff(env, first, l1, t, n, db');
  }
}
