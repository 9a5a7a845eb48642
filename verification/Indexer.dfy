/**
 The imperative side of scanning: `process_tx` and the sync loop, driving the store object.
 Both are proved to do to the tables exactly what `Scanner.Step` and `Sync.Pass` say.
 */
module Indexer {
  import opened Bytes
  import opened Smt
  import opened Ledger
  import opened Scanner
  import opened Store
  import opened Sync
  import Envelope
  import Reorg
  import Exactness

  class BlockProcessor {
    const env: Env
    const store: StateStore

    constructor (env: Env, store: StateStore)
      ensures this.env == env && this.store == store
    {
      this.env, this.store := env, store;
    }

    ghost predicate Ready()
      reads this, store, store.smt
    {
      store.Valid() && store.H == env.H
    }

    /** Some output carries the fee, to the collector if one is configured. */
    method ValidateFee(tx: Tx) returns (ok: bool)
      ensures ok == PaysFee(env, tx)
    {
      if env.minFee == 0 { return true; }
      for i := 0 to |tx.vout|
        invariant forall j | 0 <= j < i ::
                    tx.vout[j].value < env.minFee || (env.collector.Some? && tx.vout[j].script != env.collector.value)
      {
        if tx.vout[i].value < env.minFee { continue; }
        if env.collector.None? || tx.vout[i].script == env.collector.value { return true; }
      }
      return false;
    }

    /** The object sealed by the first input that spends a known seal. */
    method FindTarget(vin: seq<Outpoint>) returns (target: Option<Object>)
      ensures target == Target(store.objects, store.seals, vin)
    {
      hide Seal;
      for i := 0 to |vin|
        invariant Target(store.objects, store.seals, vin) == Target(store.objects, store.seals, vin[i..])
      {
        var found := store.GetObjectBySeal(Seal(vin[i].txid, vin[i].index));
        assert vin[i..][1..] == vin[i + 1..];
        if found.Some? { return found; }
      }
      return None;
    }

    method ProcessTx(tx: Tx, h: nat) returns (touched: Option<Str>)
      requires Ready() && |tx.txid| >= 16 && ObjectId(tx.txid) in store.universe
      modifies store`objects, store`seals, store`undoLogs, store`transitions, store.smt
      ensures Ready() && store.Tables() == Step(env, old(store.Tables()), tx, h)
      ensures touched.Some? <==>
              TxEffect(env, old(store.Tables()), tx, h).Wrote? && TxEffect(env, old(store.Tables()), tx, h).obj.Some?
    {
      hide Envelope.Parse, PaysFee, Target, CreateEffect, CallEffect, LeavesOf, SparseMerkleTree.Valid, ObjectId,
           Distinct, Ledger.SaveObject;
      ghost var objects, seals := store.objects, store.seals;
      for k := 0 to |tx.vout|
        invariant Ready() && store.Tables() == old(store.Tables())
        invariant EffectFrom(env, objects, seals, tx, h, 0) == EffectFrom(env, objects, seals, tx, h, k)
      {
        if tx.vout[k].code.None? { continue; }
        var parsed := Envelope.ParseEnvelope(tx.vout[k].code.value);
        if parsed.None? { continue; }
        var paid := ValidateFee(tx);
        if !paid { return None; }
        if IsCreate(env, parsed.value) {
          touched := Create(tx, h, k, parsed.value);
          return;
        }
        var target := FindTarget(tx.vin);
        if target.Some? {
          TargetInTable(objects, seals, tx.vin);
          touched := Call(tx, h, k, parsed.value, target.value);
          return;
        }
      }
      return None;
    }

    method Create(tx: Tx, h: nat, k: nat, ins: Envelope.Inscription) returns (touched: Option<Str>)
      requires Ready() && |tx.txid| >= 16 && k < |tx.vout| && ObjectId(tx.txid) in store.universe
      modifies store`objects, store`seals, store`undoLogs, store.smt
      ensures Ready() && store.Tables() == Apply(old(store.Tables()), CreateEffect(env, tx, h, k, ins))
      ensures touched.Some? && CreateEffect(env, tx, h, k, ins).Wrote? && CreateEffect(env, tx, h, k, ins).obj.Some?
    {
      hide Ledger.SaveObject, LeavesOf, SparseMerkleTree.Valid, Distinct, UndoId, Seal, MetaFor, Sender, ObjectId;
      var m, id, sender := MetaFor(env, ins), ObjectId(tx.txid), Sender(tx);
      var default := if ins.contentType == APPLICATION_WASM then env.codeHashOf(ins.payload) else WASM_DEFAULT;
      var codeHash := Or(m.codeHash, default);
      var record := Object(id, codeHash, Seal(tx.txid, k), tx.vout[k].value, sender,
                           Or(m.state, env.freshState(sender)), h, h);
      store.SaveUndoLog(UndoId(h, k, tx.txid), Undo(env.chain, h, id, None));
      store.SaveObject(record);
      return Some(id);
    }

    /** A call that fails leaves its undo record behind and nothing else. */
    method Call(tx: Tx, h: nat, k: nat, ins: Envelope.Inscription, target: Object) returns (touched: Option<Str>)
      requires Ready() && k < |tx.vout| && target.id in store.universe
      modifies store`objects, store`seals, store`undoLogs, store`transitions, store.smt
      ensures Ready() && store.Tables() == Apply(old(store.Tables()), CallEffect(env, tx, h, k, ins, target))
      ensures CallEffect(env, tx, h, k, ins, target).Wrote?
      ensures touched.Some? <==> CallEffect(env, tx, h, k, ins, target).obj.Some?
    {
      hide Ledger.SaveObject, LeavesOf, SparseMerkleTree.Valid, Distinct, UndoId, Seal, MetaFor, Sender;
      var m, sender, value := MetaFor(env, ins), Sender(tx), tx.vout[k].value;
      var callee, args := Or(m.callee, TRANSFER), Or(m.args, EMPTY_JSON);
      store.SaveUndoLog(UndoId(h, k, tx.txid), Undo(env.chain, h, target.id, Some(target)));
      var result: Option<(Bytes, nat)>;
      if target.codeHash != WASM_DEFAULT {
        result := env.run(target, callee, args, sender, value);
      } else {
        result := Some((env.touch(target.state, callee, sender), 21_500));
      }
      if result.None? { return None; }
      var (state, gas) := result.value;
      var seal := Seal(tx.txid, k);
      var obj := target.(seal := seal, updatedAt := h, satoshis := value, owner := Or(m.recipient, target.owner),
                         state := state);
      store.SaveObject(obj);
      store.SaveTransition(Transition(tx.txid, target.id, target.seal, seal, sender, callee, args, state, value,
                                      h, gas));
      return Some(target.id);
    }

    /** Every object a block could create is in the store's universe. */
    ghost predicate Covers(txs: seq<Tx>) {
      forall i | 0 <= i < |txs| :: |txs[i].txid| == 64 && ObjectId(txs[i].txid) in store.universe
    }

    method ProcessBlock(block: L1Block, h: nat)
      requires Ready() && Covers(block.txs)
      modifies store`objects, store`seals, store`undoLogs, store`transitions, store`blocks, store`lastBlock, store.smt
      ensures Ready() && WellFormed(block.txs) && store.Tables() == ScanBlock(env, old(store.Tables()), block, h)
    {
      hide Step, LeavesOf, SparseMerkleTree.Valid, Distinct, ObjectId, RootOf;
      ghost var before := store.Tables();
      for i := 0 to |block.txs|
        invariant Ready() && store.Tables() == ScanTxs(env, before, block.txs[..i], h)
      {
        assert block.txs[..i + 1][..i] == block.txs[..i];
        var _ := ProcessTx(block.txs[i], h);
      }
      assert block.txs[..|block.txs|] == block.txs;
      store.CloseBlock(env.chain, h, block.hash);
    }

    method FindAncestor(l1: Chain, h: nat) returns (a: nat)
      ensures a == Ancestor(env, store.Tables(), l1, h)
    {
      a := h;
      while a > 0
        invariant Ancestor(env, store.Tables(), l1, h) == Ancestor(env, store.Tables(), l1, a)
      {
        if (env.chain, a) in store.blocks {
          if a >= |l1| { return 0; }
          if store.blocks[(env.chain, a)].hash == l1[a].hash { return; }
        }
        a := a - 1;
      }
    }

    method ExtendTo(l1: Chain, lo: nat, tip: nat)
      requires Ready() && tip < |l1| && lo >= 1 && (forall h | 0 <= h < |l1| :: Covers(l1[h].txs))
      modifies store`objects, store`seals, store`undoLogs, store`transitions, store`blocks, store`lastBlock, store.smt
      ensures Ready() && WellFormedChain(l1) && store.Tables() == Extend(env, old(store.Tables()), l1, lo, tip)
    {
      hide ScanBlock, LeavesOf, SparseMerkleTree.Valid, Distinct, ObjectId;
      ghost var before := store.Tables();
      var h := lo;
      while h <= tip
        invariant lo <= h && (lo <= tip ==> h <= tip + 1) && Ready()
        invariant store.Tables() == Extend(env, before, l1, lo, if lo <= tip then h - 1 else tip)
      {
        ProcessBlock(l1[h], h);
        h := h + 1;
      }
    }

    /** One pass of the sync loop over a fixed L1 view whose fetches succeed. */
    method SyncPass(start: Option<nat>, l1: Chain)
      requires Ready() && l1 != [] && (forall h | 0 <= h < |l1| :: Covers(l1[h].txs))
      modifies store, store.smt
      ensures Ready() && (store.smt == old(store.smt) || fresh(store.smt))
      ensures WellFormedChain(l1) && Pass(env, start, old(store.Tables()), l1, store.Tables())
    {
      hide ScanBlock, LeavesOf, SparseMerkleTree.Valid, Distinct, ObjectId, RolledBack, Extend, Ancestor, Pass;
      ghost var before := store.Tables();
      var tip := |l1| - 1;
      var last := if env.chain in store.lastBlock then store.lastBlock[env.chain] else 0;
      if last == 0 && start.Some? && start.value > 0 {
        last := start.value - 1;
      }
      assert last == LastSynced(env, start, before);
      if last > 0 && (env.chain, last) in store.blocks && last < |l1| &&
         store.blocks[(env.chain, last)].hash != l1[last].hash
      {
        var ancestor := FindAncestor(l1, last - 1);
        assert Forked(env, start, before, l1);
        if ancestor == 0 {
          PassStuck(env, start, before, l1);
          return;
        }
        var _ := store.RollbackToBlock(env.chain, ancestor);
        ghost var mid := store.Tables();
        ExtendTo(l1, ancestor + 1, tip);
        PassByFork(env, start, before, l1, ancestor, mid, store.Tables());
      } else {
        assert !Forked(env, start, before, l1);
        ExtendTo(l1, last + 1, tip);
        PassOnward(env, start, before, l1, store.Tables());
      }
    }

    /** Sync passes over a run of L1 views end in the tables of a fresh scan of the last one, whatever the forks. */
    method SyncAll(start: Option<nat>, views: seq<Chain>)
      requires Ready() && store.Tables() == EMPTY && views != [] && GoodViews(env, start, views)
      requires forall i | 0 <= i < |views| :: forall h | 0 <= h < |views[i]| :: Covers(views[i][h].txs)
      modifies store, store.smt
      ensures Ready()
      ensures var l1 := views[|views| - 1]; store.Tables() == Scan(env, FirstHeight(start), l1, |l1| - 1)
    {
      hide Pass, Scan, Reorg.FreshChain, Exactness.Undoable, Follows, StateStore.Valid, WellFormedChain;
      for i := 0 to |views|
        invariant Ready() && (store.smt == old(store.smt) || fresh(store.smt))
        invariant Synced(env, start, views[..i], store.Tables())
      {
        assert views[..i + 1][..i] == views[..i];
        SyncPass(start, views[i]);
      }
      assert views[..|views|] == views;
      SyncEqualsFreshScan(env, start, views, store.Tables());
    }
  }

  lemma {:induction false} TargetInTable(objects: map<Str, Object>, seals: map<Str, Str>, vin: seq<Outpoint>)
    ensures var t := Target(objects, seals, vin); t.Some? ==> exists id :: id in objects && objects[id] == t.value
  {
    if vin != [] { TargetInTable(objects, seals, vin[1..]); }
  }
}
