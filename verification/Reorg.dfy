/**
 Rollback and reorganisation. Undoing a scanned chain down to height `t` gives exactly the tables
 of a scan that stopped at `t`, so a sync pass over any fork leaves what a fresh scan would.
 */
module Reorg {
  import opened Bytes
  import opened Ledger
  import opened Scanner

  // ----- what the scanned chain must satisfy

  ghost function TxIds(txs: seq<Tx>): set<Str> {
    set i | 0 <= i < |txs| :: txs[i].txid
  }

  /** The transaction ids of heights `first` to `n`. */
  ghost function Seen(first: nat, l1: Chain, n: nat): set<Str>
    requires n < |l1|
  {
    if n < first || n == 0 then {} else Seen(first, l1, n - 1) + TxIds(l1[n].txs)
  }

  /** A transaction with a new id whose undo id is new and which creates no object that is already there. */
  ghost predicate FreshTx(env: Env, db: Db, seen: set<Str>, tx: Tx, h: nat)
    requires |tx.txid| == 64
  {
    var e := TxEffect(env, db, tx, h);
    tx.txid !in seen &&
    (e.Wrote? ==> e.undoId !in db.undo && (e.undo.prev.None? ==> e.undo.objectId !in db.objects))
  }

  /** Entry `j` records object `id` at height `h`. */
  ghost predicate Slot(undo: map<nat, Undo>, h: nat, id: Str, j: nat) {
    j in undo && undo[j].height == h && undo[j].objectId == id
  }

  /** A second undo record of one object in one block has a smaller id than an earlier one. */
  ghost predicate OrderedTx(env: Env, db: Db, tx: Tx, h: nat)
    requires |tx.txid| == 64
  {
    var e := TxEffect(env, db, tx, h);
    e.Wrote? && (exists j :: Slot(db.undo, h, e.undo.objectId, j)) ==>
      exists j :: Slot(db.undo, h, e.undo.objectId, j) && e.undoId < j
  }

  ghost predicate FreshTxs(env: Env, db: Db, seen: set<Str>, txs: seq<Tx>, h: nat)
    requires WellFormed(txs)
  {
    txs != [] ==>
      var init := txs[..|txs| - 1];
      FreshTxs(env, db, seen, init, h) && FreshTx(env, ScanTxs(env, db, init, h), seen + TxIds(init), txs[|txs| - 1], h)
  }

  ghost predicate OrderedTxs(env: Env, db: Db, txs: seq<Tx>, h: nat)
    requires WellFormed(txs)
  {
    txs != [] ==>
      var init := txs[..|txs| - 1];
      OrderedTxs(env, db, init, h) && OrderedTx(env, ScanTxs(env, db, init, h), txs[|txs| - 1], h)
  }

  ghost predicate FreshChain(env: Env, first: nat, l1: Chain, n: nat)
    requires WellFormedChain(l1) && n < |l1|
  {
    n >= first && n > 0 ==>
      FreshChain(env, first, l1, n - 1) &&
        FreshTxs(env, Scan(env, first, l1, n - 1), Seen(first, l1, n - 1), l1[n].txs, n)
  }

  ghost predicate OrderedChain(env: Env, first: nat, l1: Chain, n: nat)
    requires WellFormedChain(l1) && n < |l1|
  {
    n >= first && n > 0 ==>
      OrderedChain(env, first, l1, n - 1) && OrderedTxs(env, Scan(env, first, l1, n - 1), l1[n].txs, n)
  }

  // ----- what every scanned table satisfies

  ghost predicate Inv(env: Env, db: Db, seen: set<Str>, h: nat) {
    && Coherent(db.objects, db.seals) && SealsOwned(db)
    && (forall id, s | Holds(db, id, s) :: |s| >= 64 && s[..64] in seen)
    && (forall j | j in db.undo :: db.undo[j].chain == env.chain && db.undo[j].height <= h)
    && (forall x | x in db.transitions :: x in seen && db.transitions[x].height <= h)
    && (forall k | k in db.blocks :: k.0 == env.chain && k.1 <= h)
  }

  /** The tables `db` partway through block `h`, against the tables `db0` before it. */
  ghost predicate During(db0: Db, db: Db, h: nat) {
    && (forall j | j in db0.undo :: j in db.undo && db.undo[j] == db0.undo[j])
    && (forall j | j in db.undo && j !in db0.undo :: db.undo[j].height == h)
    && (forall id | forall j :: !Slot(db.undo, h, id, j) :: Get(db.objects, id) == Get(db0.objects, id))
    && (forall x | x in db0.transitions :: x in db.transitions && db.transitions[x] == db0.transitions[x])
    && (forall x | x in db.transitions && x !in db0.transitions :: db.transitions[x].height == h)
    && db.blocks == db0.blocks && db.lastBlock == db0.lastBlock
  }

  ghost predicate Top(undo: map<nat, Undo>, h: nat, id: Str, j: nat) {
    Slot(undo, h, id, j) && forall i: nat | Slot(undo, h, id, i) :: i <= j
  }

  /** Each object's highest undo record of block `h` holds the object as it was before the block. */
  ghost predicate TopsExact(db0: Db, db: Db, h: nat) {
    forall id, j | Top(db.undo, h, id, j) :: db.undo[j].prev == Get(db0.objects, id)
  }

  // ----- one transaction

  lemma ApplyGet(db: Db, e: Effect, id: Str)
    requires e.Wrote? && (e.obj.Some? ==> e.obj.value.id == e.undo.objectId)
    ensures Get(Apply(db, e).objects, id) == if e.obj.Some? && id == e.undo.objectId then e.obj else Get(db.objects, id)
    ensures Apply(db, e).undo == db.undo[e.undoId := e.undo]
    ensures Apply(db, e).blocks == db.blocks && Apply(db, e).lastBlock == db.lastBlock
    ensures Apply(db, e).transitions ==
            if e.trans.Some? then db.transitions[e.trans.value.txid := e.trans.value] else db.transitions
  {
  }

  lemma ApplyNothing(db: Db)
    ensures Apply(db, Nothing) == db
  {
  }

  lemma ApplyHolds(env: Env, db: Db, seen: set<Str>, tx: Tx, h: nat, id: Str, s: Str)
    requires |tx.txid| == 64 && Inv(env, db, seen, h) && FreshTx(env, db, seen, tx, h) &&
             TxEffect(env, db, tx, h).Wrote?
    ensures var e := TxEffect(env, db, tx, h);
            Holds(Apply(db, e), id, s) ==>
              Holds(db, id, s) || (e.obj.Some? && id == e.undo.objectId && s == e.obj.value.seal)
  {
    hide TxEffect, Apply;
    var e := TxEffect(env, db, tx, h);
    EffectIsShaped(env, db, tx, h);
    ApplyGet(db, e, id);
    var db' := Apply(db, e);
    if Holds(db', id, s) && !(id in db'.objects && db'.objects[id].seal == s) {
      var j :| j in db'.undo && db'.undo[j].objectId == id && db'.undo[j].prev.Some? &&
               db'.undo[j].prev.value.seal == s;
      if j == e.undoId {
        assert Get(db.objects, id) == e.undo.prev;
      } else {
        assert j in db.undo;
      }
    }
  }

  lemma EffectIsShaped(env: Env, db: Db, tx: Tx, h: nat)
    requires |tx.txid| == 64 && Coherent(db.objects, db.seals)
    ensures Shaped(env, db.objects, tx, h, TxEffect(env, db, tx, h))
  {
    EffectShaped(env, db.objects, db.seals, tx, h, 0);
  }

  /** A transaction on a fresh chain keeps the invariant; the only new seal carries its own id. */
  lemma StepInv(env: Env, db: Db, seen: set<Str>, tx: Tx, h: nat)
    requires |tx.txid| == 64 && Inv(env, db, seen, h) && FreshTx(env, db, seen, tx, h)
    ensures Inv(env, Step(env, db, tx, h), seen + {tx.txid}, h)
  {
    hide TxEffect, Apply, Holds, Coherent, SealsOwned;
    var e := TxEffect(env, db, tx, h);
    ApplyNothing(db);
    if e.Wrote? {
      EffectIsShaped(env, db, tx, h);
      ApplyGet(db, e, e.undo.objectId);
      StepCoherent(env, db, seen, tx, h);
      StepSeals(env, db, seen, tx, h);
    }
  }

  lemma StepSeals(env: Env, db: Db, seen: set<Str>, tx: Tx, h: nat)
    requires |tx.txid| == 64 && Inv(env, db, seen, h) && FreshTx(env, db, seen, tx, h) &&
             TxEffect(env, db, tx, h).Wrote?
    ensures var db' := Step(env, db, tx, h);
            SealsOwned(db') && forall id, s | Holds(db', id, s) :: |s| >= 64 && s[..64] in seen + {tx.txid}
  {
    hide TxEffect, Apply, Holds, Coherent;
    var e := TxEffect(env, db, tx, h);
    var db' := Apply(db, e);
    EffectIsShaped(env, db, tx, h);
    ApplyGet(db, e, e.undo.objectId);
    forall id, s | Holds(db', id, s)
      ensures Holds(db, id, s) || (e.obj.Some? && id == e.undo.objectId && s == e.obj.value.seal)
    {
      ApplyHolds(env, db, seen, tx, h, id, s);
    }
  }

  lemma StepCoherent(env: Env, db: Db, seen: set<Str>, tx: Tx, h: nat)
    requires |tx.txid| == 64 && Inv(env, db, seen, h) && FreshTx(env, db, seen, tx, h) &&
             TxEffect(env, db, tx, h).Wrote?
    ensures var db' := Step(env, db, tx, h); Coherent(db'.objects, db'.seals)
  {
    hide TxEffect;
    var e := TxEffect(env, db, tx, h);
    EffectIsShaped(env, db, tx, h);
    if e.obj.Some? {
      var obj := e.obj.value;
      assert obj.seal in db.seals ==> Holds(db, db.seals[obj.seal], obj.seal);
      var logged := db.(undo := db.undo[e.undoId := e.undo]);
      SaveCoherent(logged, obj);
    }
  }

  lemma StepDuring(env: Env, db0: Db, db: Db, seen: set<Str>, tx: Tx, h: nat)
    requires |tx.txid| == 64 && Inv(env, db, seen, h) && FreshTx(env, db, seen, tx, h) && During(db0, db, h)
    ensures During(db0, Step(env, db, tx, h), h)
    ensures TopsExact(db0, db, h) && OrderedTx(env, db, tx, h) ==> TopsExact(db0, Step(env, db, tx, h), h)
  {
    hide TxEffect, Apply, Holds, Coherent, SealsOwned, During, TopsExact;
    var e := TxEffect(env, db, tx, h);
    ApplyNothing(db);
    if e.Wrote? {
      EffectIsShaped(env, db, tx, h);
      ApplyDuring(env, db0, db, tx, h, e);
      if TopsExact(db0, db, h) && OrderedTx(env, db, tx, h) {
        ApplyGet(db, e, e.undo.objectId);
        GetNone(db.objects, e.undo.objectId);
        StepTops(db0, db, h, e, Apply(db, e));
      }
    }
  }

  lemma GetNone(objects: map<Str, Object>, id: Str)
    ensures id !in objects ==> Get(objects, id) == None
  {
  }

  lemma ApplyDuring(env: Env, db0: Db, db: Db, tx: Tx, h: nat, e: Effect)
    requires |tx.txid| == 64 && e.Wrote? && Shaped(env, db.objects, tx, h, e)
    requires e.undoId !in db.undo && tx.txid !in db.transitions && During(db0, db, h)
    ensures During(db0, Apply(db, e), h)
  {
    hide Apply, Get;
    var db' := Apply(db, e);
    ApplyGet(db, e, e.undo.objectId);
    assert Slot(db'.undo, h, e.undo.objectId, e.undoId);
    forall id | forall j :: !Slot(db'.undo, h, id, j) ensures Get(db'.objects, id) == Get(db0.objects, id) {
      ApplyGet(db, e, id);
      forall j ensures !Slot(db.undo, h, id, j) {
        assert Slot(db.undo, h, id, j) ==> Slot(db'.undo, h, id, j);
      }
    }
  }

  lemma StepTops(db0: Db, db: Db, h: nat, e: Effect, db': Db)
    requires e.Wrote? && e.undoId !in db.undo && db'.undo == db.undo[e.undoId := e.undo] && e.undo.height == h
    requires e.undo.prev == Get(db.objects, e.undo.objectId)
    requires During(db0, db, h) && TopsExact(db0, db, h)
    requires (exists j :: Slot(db.undo, h, e.undo.objectId, j)) ==>
             exists j :: Slot(db.undo, h, e.undo.objectId, j) && e.undoId < j
    ensures TopsExact(db0, db', h)
  {
    forall id, j | Top(db'.undo, h, id, j) ensures db'.undo[j].prev == Get(db0.objects, id) {
      forall i | Slot(db.undo, h, id, i) ensures Slot(db'.undo, h, id, i) {
      }
      if j == e.undoId {
        assert forall i :: !Slot(db.undo, h, id, i);
      } else {
        assert Top(db.undo, h, id, j);
      }
    }
  }

  // ----- one block

  lemma {:induction false} TxsKeep(env: Env, db: Db, seen: set<Str>, txs: seq<Tx>, h: nat)
    requires WellFormed(txs) && FreshTxs(env, db, seen, txs, h)
    requires Inv(env, db, seen, h) && (forall j | j in db.undo :: db.undo[j].height < h)
    ensures Inv(env, ScanTxs(env, db, txs, h), seen + TxIds(txs), h)
    ensures During(db, ScanTxs(env, db, txs, h), h)
    ensures OrderedTxs(env, db, txs, h) ==> TopsExact(db, ScanTxs(env, db, txs, h), h)
  {
    hide Inv, During, TopsExact, Step, FreshTx, OrderedTx;
    if txs == [] {
      assert seen + TxIds(txs) == seen;
      NoneDuring(db, h);
    } else {
      var init, tx := txs[..|txs| - 1], txs[|txs| - 1];
      TxsKeep(env, db, seen, init, h);
      var mid := ScanTxs(env, db, init, h);
      StepInv(env, mid, seen + TxIds(init), tx, h);
      StepDuring(env, db, mid, seen + TxIds(init), tx, h);
      TxIdsSnoc(txs);
      assert seen + TxIds(txs) == seen + TxIds(init) + {tx.txid};
    }
  }

  lemma NoneDuring(db: Db, h: nat)
    requires forall j | j in db.undo :: db.undo[j].height < h
    ensures During(db, db, h) && TopsExact(db, db, h)
  {
  }

  lemma TxIdsSnoc(txs: seq<Tx>)
    requires txs != []
    ensures TxIds(txs) == TxIds(txs[..|txs| - 1]) + {txs[|txs| - 1].txid}
  {
    var init := txs[..|txs| - 1];
    forall x | x in TxIds(txs) ensures x in TxIds(init) + {txs[|txs| - 1].txid} {
      var i :| 0 <= i < |txs| && txs[i].txid == x;
      if i < |init| { assert init[i].txid == x; }
    }
    forall x | x in TxIds(init) ensures x in TxIds(txs) {
      var i :| 0 <= i < |init| && init[i].txid == x;
      assert txs[i].txid == x;
    }
  }

  // ----- whole scans

  lemma EmptyInv(env: Env, h: nat)
    ensures Inv(env, EMPTY, {}, h)
  {
    assert forall id, s :: !Holds(EMPTY, id, s);
  }

  lemma InvMonotone(env: Env, db: Db, seen: set<Str>, h: nat, h': nat)
    requires Inv(env, db, seen, h) && h <= h'
    ensures Inv(env, db, seen, h')
  {
    hide Coherent, SealsOwned, Holds;
  }

  lemma {:induction false} ScanInv(env: Env, first: nat, l1: Chain, n: nat)
    requires WellFormedChain(l1) && n < |l1| && FreshChain(env, first, l1, n)
    ensures Inv(env, Scan(env, first, l1, n), Seen(first, l1, n), n)
  {
    hide Inv, ScanTxs, FreshTxs, CloseBlock;
    if n < first || n == 0 {
      EmptyInv(env, n);
    } else {
      ScanInv(env, first, l1, n - 1);
      BlockInv(env, Scan(env, first, l1, n - 1), Seen(first, l1, n - 1), l1[n], n);
    }
  }

  lemma BlockInv(env: Env, db: Db, seen: set<Str>, block: L1Block, n: nat)
    requires n > 0 && WellFormed(block.txs) && Inv(env, db, seen, n - 1) && FreshTxs(env, db, seen, block.txs, n)
    ensures Inv(env, ScanBlock(env, db, block, n), seen + TxIds(block.txs), n)
  {
    hide ScanTxs, FreshTxs, During, TopsExact, Coherent, RootOf, OrderedTxs;
    InvMonotone(env, db, seen, n - 1, n);
    TxsKeep(env, db, seen, block.txs, n);
    var mid := ScanTxs(env, db, block.txs, n);
    var db' := ScanBlock(env, db, block, n);
    assert forall id, s | Holds(db', id, s) :: Holds(mid, id, s);
  }

  /** The facts about one more block that the history lemmas use. */
  lemma BlockFacts(env: Env, first: nat, l1: Chain, n: nat)
    requires WellFormedChain(l1) && n < |l1| && FreshChain(env, first, l1, n) && n >= first && n > 0
    ensures var db0, db := Scan(env, first, l1, n - 1), Scan(env, first, l1, n);
            && During(db0, db.(blocks := db0.blocks, lastBlock := db0.lastBlock), n)
            && (OrderedChain(env, first, l1, n) ==> TopsExact(db0, db, n))
            && (forall j | j in db0.undo :: db0.undo[j].height < n && db0.undo[j].chain == env.chain)
            && (forall j | j in db.undo :: db.undo[j].chain == env.chain)
            && (forall x | x in db0.transitions :: db0.transitions[x].height < n)
            && (forall k | k in db0.blocks :: k.0 == env.chain && k.1 < n)
  {
    hide ScanTxs, FreshTxs, Coherent, RootOf, SealsOwned, Holds, OrderedTxs, FreshChain, OrderedChain;
    var db0 := Scan(env, first, l1, n - 1);
    FreshAt(env, first, l1, n);
    ScanInv(env, first, l1, n - 1);
    InvMonotone(env, db0, Seen(first, l1, n - 1), n - 1, n);
    TxsKeep(env, db0, Seen(first, l1, n - 1), l1[n].txs, n);
  }

  lemma FreshAt(env: Env, first: nat, l1: Chain, n: nat)
    requires WellFormedChain(l1) && n < |l1| && FreshChain(env, first, l1, n) && n >= first && n > 0
    ensures FreshChain(env, first, l1, n - 1)
    ensures FreshTxs(env, Scan(env, first, l1, n - 1), Seen(first, l1, n - 1), l1[n].txs, n)
    ensures OrderedChain(env, first, l1, n) ==> OrderedTxs(env, Scan(env, first, l1, n - 1), l1[n].txs, n)
    ensures OrderedChain(env, first, l1, n) ==> OrderedChain(env, first, l1, n - 1)
  {
    hide ScanTxs, FreshTxs, OrderedTxs;
  }

  /** Blocks above `t` only add undo records above `t`, and leave alone every object they record nothing of. */
  ghost predicate Extends(env: Env, base: Db, db: Db, t: nat) {
    && (forall j | j in base.undo :: j in db.undo && db.undo[j] == base.undo[j] && base.undo[j].height <= t)
    && (forall j | j in db.undo && j !in base.undo :: db.undo[j].height > t && db.undo[j].chain == env.chain)
    && (forall id | forall j | j in Above(db.undo, env.chain, t) :: db.undo[j].objectId != id ::
          Get(db.objects, id) == Get(base.objects, id))
    && TransitionsUpTo(db.transitions, t) == base.transitions
    && BlocksUpTo(db.blocks, env.chain, t) == base.blocks
  }

  ghost predicate FinalsExact(env: Env, base: Db, db: Db, t: nat) {
    forall id, j | Final(db.undo, env.chain, t, id, j) :: db.undo[j].prev == Get(base.objects, id)
  }

  lemma {:induction false} ScanExtends(env: Env, first: nat, l1: Chain, t: nat, n: nat)
    requires WellFormedChain(l1) && t <= n < |l1| && FreshChain(env, first, l1, n) && first <= t && t > 0
    ensures Extends(env, Scan(env, first, l1, t), Scan(env, first, l1, n), t)
    ensures OrderedChain(env, first, l1, n) ==> FinalsExact(env, Scan(env, first, l1, t), Scan(env, first, l1, n), t)
    decreases n - t
  {
    hide Scan, FreshChain, OrderedChain;
    if t == n {
      ScanInv(env, first, l1, n);
      SelfExtends(env, Scan(env, first, l1, n), Seen(first, l1, n), n);
    } else {
      FreshAt(env, first, l1, n);
      ScanExtends(env, first, l1, t, n - 1);
      BlockFacts(env, first, l1, n);
      ScanBlocks(env, first, l1, n);
      ExtendMore(env, Scan(env, first, l1, t), Scan(env, first, l1, n - 1), Scan(env, first, l1, n), t, n);
    }
  }

  ghost predicate OneMore(chain: Str, a: map<(Str, nat), Block>, b: map<(Str, nat), Block>, n: nat) {
    (chain, n) in b && b == a[(chain, n) := b[(chain, n)]]
  }

  lemma {:induction false} TxsLeaveBlocks(env: Env, db: Db, txs: seq<Tx>, h: nat)
    requires WellFormed(txs)
    ensures ScanTxs(env, db, txs, h).blocks == db.blocks && ScanTxs(env, db, txs, h).lastBlock == db.lastBlock
  {
    hide TxEffect, SaveObject, Apply;
    if txs != [] {
      TxsLeaveBlocks(env, db, txs[..|txs| - 1], h);
      ApplyLeavesBlocks(ScanTxs(env, db, txs[..|txs| - 1], h),
                        TxEffect(env, ScanTxs(env, db, txs[..|txs| - 1], h), txs[|txs| - 1], h));
    }
  }

  lemma ApplyLeavesBlocks(db: Db, e: Effect)
    ensures Apply(db, e).blocks == db.blocks && Apply(db, e).lastBlock == db.lastBlock
  {
  }

  lemma ScanBlocks(env: Env, first: nat, l1: Chain, n: nat)
    requires WellFormedChain(l1) && n < |l1| && n >= first && n > 0
    ensures OneMore(env.chain, Scan(env, first, l1, n - 1).blocks, Scan(env, first, l1, n).blocks, n)
    ensures Scan(env, first, l1, n).lastBlock == Scan(env, first, l1, n - 1).lastBlock[env.chain := n]
  {
    hide ScanTxs, RootOf;
    TxsLeaveBlocks(env, Scan(env, first, l1, n - 1), l1[n].txs, n);
  }

  lemma SelfExtends(env: Env, db: Db, seen: set<Str>, t: nat)
    requires Inv(env, db, seen, t)
    ensures Extends(env, db, db, t) && FinalsExact(env, db, db, t)
  {
    hide Coherent, SealsOwned, Holds;
    assert TransitionsUpTo(db.transitions, t) == db.transitions;
    assert BlocksUpTo(db.blocks, env.chain, t) == db.blocks;
  }

  /** One more block: an object's final record stays the same unless this block is the first to touch it. */
  lemma ExtendMore(env: Env, base: Db, db0: Db, db: Db, t: nat, n: nat)
    requires t < n && Extends(env, base, db0, t)
    requires During(db0, db.(blocks := db0.blocks, lastBlock := db0.lastBlock), n)
    requires forall j | j in db0.undo :: db0.undo[j].height < n && db0.undo[j].chain == env.chain
    requires forall j | j in db.undo && j !in db0.undo :: db.undo[j].chain == env.chain
    requires forall x | x in db0.transitions :: db0.transitions[x].height < n
    requires OneMore(env.chain, db0.blocks, db.blocks, n)
    ensures Extends(env, base, db, t)
    ensures TopsExact(db0, db, n) && FinalsExact(env, base, db0, t) ==> FinalsExact(env, base, db, t)
  {
    hide Get, TransitionsUpTo, BlocksUpTo;
    forall id | forall j | j in Above(db.undo, env.chain, t) :: db.undo[j].objectId != id
      ensures Get(db.objects, id) == Get(base.objects, id)
    {
      UntouchedBelow(env, db0, db, t, n, id);
    }
    MoreTransitions(db0.transitions, db.transitions, t, n);
    MoreBlocks(env.chain, db0.blocks, db.blocks, t, n);
    if TopsExact(db0, db, n) && FinalsExact(env, base, db0, t) {
      forall id, j | Final(db.undo, env.chain, t, id, j) ensures db.undo[j].prev == Get(base.objects, id) {
        FinalBelow(env, base, db0, db, t, n, id, j);
      }
    }
  }

  lemma UntouchedBelow(env: Env, db0: Db, db: Db, t: nat, n: nat, id: Str)
    requires t < n && During(db0, db.(blocks := db0.blocks, lastBlock := db0.lastBlock), n)
    requires forall j | j in db.undo && j !in db0.undo :: db.undo[j].chain == env.chain
    requires forall j | j in db0.undo :: db0.undo[j].height < n
    requires forall j | j in Above(db.undo, env.chain, t) :: db.undo[j].objectId != id
    ensures forall j | j in Above(db0.undo, env.chain, t) :: db0.undo[j].objectId != id
    ensures Get(db.objects, id) == Get(db0.objects, id)
  {
    assert forall j | j in Above(db0.undo, env.chain, t) :: j in Above(db.undo, env.chain, t);
    forall j ensures !Slot(db.undo, n, id, j) {
      assert Slot(db.undo, n, id, j) ==> j in Above(db.undo, env.chain, t);
    }
  }

  lemma FinalBelow(env: Env, base: Db, db0: Db, db: Db, t: nat, n: nat, id: Str, j: nat)
    requires t < n && Extends(env, base, db0, t) && FinalsExact(env, base, db0, t) && TopsExact(db0, db, n)
    requires During(db0, db.(blocks := db0.blocks, lastBlock := db0.lastBlock), n)
    requires forall i | i in db0.undo :: db0.undo[i].height < n
    requires Final(db.undo, env.chain, t, id, j)
    requires forall i | i in db.undo && i !in db0.undo :: db.undo[i].chain == env.chain
    ensures db.undo[j].prev == Get(base.objects, id)
  {
    assert forall i | i in Above(db0.undo, env.chain, t) ::
             i in Above(db.undo, env.chain, t) && db.undo[i] == db0.undo[i];
    if j in db0.undo {
      assert j in Above(db0.undo, env.chain, t);
      forall i | i in Above(db0.undo, env.chain, t) && db0.undo[i].objectId == id && i != j
        ensures Before(db0.undo, i, j)
      {
        assert Before(db.undo, i, j);
      }
      assert Final(db0.undo, env.chain, t, id, j);
    } else {
      forall i | i in Above(db0.undo, env.chain, t) ensures db0.undo[i].objectId != id {
        assert i in Above(db.undo, env.chain, t) && db.undo[i].height < n == db.undo[j].height;
        assert !Before(db.undo, i, j);
      }
      forall i: nat | Slot(db.undo, n, id, i) ensures i <= j {
        assert i in Above(db.undo, env.chain, t);
        if i != j { assert Before(db.undo, i, j); }
      }
      assert Top(db.undo, n, id, j);
    }
  }

  lemma MoreTransitions(a: map<Str, Transition>, b: map<Str, Transition>, t: nat, n: nat)
    requires t < n
    requires forall x | x in a :: x in b && b[x] == a[x]
    requires forall x | x in b && x !in a :: b[x].height == n
    ensures TransitionsUpTo(b, t) == TransitionsUpTo(a, t)
  {
  }

  lemma MoreBlocks(chain: Str, a: map<(Str, nat), Block>, b: map<(Str, nat), Block>, t: nat, n: nat)
    requires t < n && OneMore(chain, a, b, n)
    ensures BlocksUpTo(b, chain, t) == BlocksUpTo(a, chain, t)
  {
  }

  // ----- rollback exactness

  lemma {:induction false} LastBlockOf(env: Env, first: nat, l1: Chain, n: nat)
    requires WellFormedChain(l1) && n < |l1|
    ensures Scan(env, first, l1, n).lastBlock == if n < first || n == 0 then map[] else map[env.chain := n]
  {
    hide ScanBlock;
    if n >= first && n > 0 {
      LastBlockOf(env, first, l1, n - 1);
      ScanBlocks(env, first, l1, n);
    }
  }

  /** A rollback gives the scan to `t` exactly when each record it applies last holds the object as of `t`. */
  lemma RollbackByFinals(env: Env, first: nat, l1: Chain, t: nat, n: nat, db': Db)
    requires WellFormedChain(l1) && t <= n < |l1| && FreshChain(env, first, l1, n) && first <= t && t > 0
    requires RolledBack(Scan(env, first, l1, n), env.chain, t, db')
    ensures db' == Scan(env, first, l1, t) <==> FinalsExact(env, Scan(env, first, l1, t), Scan(env, first, l1, n), t)
  {
    hide Scan, FreshChain, Get, UndoAll, Before;
    var base, db := Scan(env, first, l1, t), Scan(env, first, l1, n);
    var order: seq<nat> :| IsOrder(db.undo, Above(db.undo, env.chain, t), order) &&
                           db' == Trimmed(UndoAll(db, order), env.chain, t);
    ScanExtends(env, first, l1, t, n);
    forall id: Str
      ensures (forall j | j in Above(db.undo, env.chain, t) :: db.undo[j].objectId != id) ==>
              Get(db'.objects, id) == Get(base.objects, id)
      ensures forall j | Final(db.undo, env.chain, t, id, j) :: Get(db'.objects, id) == db.undo[j].prev
    {
      OrderDecides(db, env.chain, t, order, id);
    }
    if db' == base {
      forall id, j | Final(db.undo, env.chain, t, id, j) ensures db.undo[j].prev == Get(base.objects, id) {
        assert Get(db'.objects, id) == db.undo[j].prev;
      }
    }
    if FinalsExact(env, base, db, t) {
      forall id: Str ensures Get(db'.objects, id) == Get(base.objects, id) {
        FinalOrUntouched(db.undo, env.chain, t, id);
      }
      SameObjects(db'.objects, base.objects);
      SameTables(env, first, l1, t, n, order, db');
    }
  }

  /** An object with records above `t` has a final one. */
  lemma FinalOrUntouched(undo: map<nat, Undo>, chain: Str, t: nat, id: Str)
    ensures (forall j | j in Above(undo, chain, t) :: undo[j].objectId != id) ||
            exists j :: Final(undo, chain, t, id, j)
  {
    hide Before;
    var ids := set j | j in Above(undo, chain, t) && undo[j].objectId == id;
    if ids == {} {
      assert forall j | j in Above(undo, chain, t) :: j !in ids;
    } else {
      var j := Youngest(undo, ids);
      assert forall i | i in Above(undo, chain, t) && undo[i].objectId == id :: i in ids;
      assert Final(undo, chain, t, id, j);
    }
  }

  /** A non-empty set of entries has one that comes after all the others. */
  lemma {:induction false} Youngest(undo: map<nat, Undo>, ids: set<nat>) returns (j: nat)
    requires ids != {} && forall i | i in ids :: i in undo
    ensures j in ids && forall i | i in ids && i != j :: Before(undo, i, j)
  {
    j :| j in ids;
    var rest := ids - {j};
    if rest != {} {
      var k := Youngest(undo, rest);
      assert forall i | i in ids && i != j && i != k :: i in rest && Before(undo, i, k);
      if Before(undo, j, k) { j := k; }
    } else {
      assert forall i | i in ids && i != j :: i in rest;
    }
  }

  lemma {:induction false} OrderExists(undo: map<nat, Undo>, ids: set<nat>) returns (order: seq<nat>)
    requires forall i | i in ids :: i in undo
    ensures IsOrder(undo, ids, order)
  {
    hide Before;
    order := [];
    if ids != {} {
      var j := Youngest(undo, ids);
      var init := OrderExists(undo, ids - {j});
      order := init + [j];
      assert forall i | 0 <= i < |init| :: init[i] in init && init[i] in ids - {j};
    }
  }

  /** From any tables a rollback has a result. */
  lemma RollbackExists(db: Db, chain: Str, t: nat) returns (db': Db)
    ensures RolledBack(db, chain, t, db')
  {
    var order := OrderExists(db.undo, Above(db.undo, chain, t));
    db' := Trimmed(UndoAll(db, order), chain, t);
  }

  lemma SameObjects(a: map<Str, Object>, b: map<Str, Object>)
    requires forall id: Str :: Get(a, id) == Get(b, id)
    ensures a == b
  {
    assert forall id: Str | id in a :: Get(a, id) == Get(b, id) == Some(a[id]);
    assert forall id: Str | id in b :: Get(a, id) == Get(b, id) == Some(b[id]);
  }

  lemma SameTables(env: Env, first: nat, l1: Chain, t: nat, n: nat, order: seq<nat>, db': Db)
    requires WellFormedChain(l1) && t <= n < |l1| && FreshChain(env, first, l1, n) && first <= t && t > 0
    requires var db := Scan(env, first, l1, n);
             IsOrder(db.undo, Above(db.undo, env.chain, t), order) && db' == Trimmed(UndoAll(db, order), env.chain, t)
    requires db'.objects == Scan(env, first, l1, t).objects
    ensures db' == Scan(env, first, l1, t)
  {
    hide *;
    var base, db := Scan(env, first, l1, t), Scan(env, first, l1, n);
    ScanExtends(env, first, l1, t, n);
    FreshBelow(env, first, l1, t, n);
    ScanInv(env, first, l1, n);
    ScanInv(env, first, l1, t);
    OrderInUndo(db, env.chain, t, order);
    SealsMatch(env, db, base, Seen(first, l1, n), Seen(first, l1, t), n, t, order);
    LastBlockOf(env, first, l1, t);
    LastBlockOf(env, first, l1, n);
    OtherTables(env, base, db, t, UndoAll(db, order));
  }

  lemma SealsMatch(env: Env, db: Db, base: Db, s: set<Str>, s': set<Str>, n: nat, t: nat, order: seq<nat>)
    requires Inv(env, db, s, n) && Inv(env, base, s', t) && (forall j | j in order :: j in db.undo)
    requires Trimmed(UndoAll(db, order), env.chain, t).objects == base.objects
    ensures UndoAll(db, order).objects == base.objects && UndoAll(db, order).seals == base.seals
  {
    hide Coherent, SealsOwned, Holds, UndoAll, TransitionsUpTo, BlocksUpTo;
    UndoAllCoherent(db, order);
    CoherentUnique(base.objects, UndoAll(db, order).seals, base.seals);
  }

  lemma OtherTables(env: Env, base: Db, db: Db, t: nat, undone: Db)
    requires Extends(env, base, db, t) && undone == db.(objects := base.objects, seals := base.seals)
    requires base.lastBlock == map[env.chain := t] && db.lastBlock.Keys == {env.chain}
    ensures Trimmed(undone, env.chain, t) == base
  {
    hide TransitionsUpTo, BlocksUpTo, Get;
    assert db.undo - Above(db.undo, env.chain, t) == base.undo;
    assert undone.lastBlock[env.chain := t] == map[env.chain := t];
  }

  lemma {:induction false} FreshBelow(env: Env, first: nat, l1: Chain, t: nat, n: nat)
    requires WellFormedChain(l1) && t <= n < |l1| && FreshChain(env, first, l1, n) && first <= t && t > 0
    ensures FreshChain(env, first, l1, t)
    ensures OrderedChain(env, first, l1, n) ==> OrderedChain(env, first, l1, t)
    decreases n - t
  {
    hide FreshChain, OrderedChain, Scan;
    if t < n {
      FreshAt(env, first, l1, n);
      FreshBelow(env, first, l1, t, n - 1);
    }
  }

  /** On a chain whose undo ids are ordered, rolling back is exact: objects, seals, undo log, blocks and all. */
  lemma RollbackExact(env: Env, first: nat, l1: Chain, t: nat, n: nat, db': Db)
    requires WellFormedChain(l1) && t <= n < |l1| && first <= t && t > 0
    requires FreshChain(env, first, l1, n) && OrderedChain(env, first, l1, n)
    requires RolledBack(Scan(env, first, l1, n), env.chain, t, db')
    ensures db' == Scan(env, first, l1, t)
  {
    hide Scan, FreshChain, OrderedChain, RolledBack, FinalsExact, Extends;
    ScanExtends(env, first, l1, t, n);
    RollbackByFinals(env, first, l1, t, n, db');
  }
}
