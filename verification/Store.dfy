/**
 The state store of `storage/db.rs`: tables kept in step with the in-memory tree. Each method is
 proved against the table functions of `Ledger`; the tree always holds the leaves of the objects table.
 */
module Store {
  import opened Bytes
  import opened Smt
  import opened Ledger

  datatype BridgeStatus = Pending | Verified | Locked | Minted | Completed | Failed

  datatype BridgeTransfer = BridgeTransfer(id: Str, sourceChain: Str, sourceObjectId: Str, destChain: Str,
                                           destOwner: Str, amount: nat, status: BridgeStatus, createdAt: int,
                                           completedAt: Option<int>)

  /** The smallest key: tables iterate in key order. */
  method SmallestKey(ids: set<nat>) returns (m: nat)
    requires ids != {}
    ensures m in ids && forall i | i in ids :: m <= i
  {
    m :| m in ids;
    var rest := ids - {m};
    while rest != {}
      invariant rest <= ids && m in ids && m !in rest
      invariant forall i | i in ids :: i in rest || m <= i
      decreases rest
    {
      var k :| k in rest;
      rest := rest - {k};
      if k < m { m := k; }
    }
  }

  ghost predicate Sorted(undo: map<nat, Undo>, order: seq<nat>) {
    && (forall j | j in order :: j in undo)
    && (forall a, b | 0 <= a < b < |order| :: Before(undo, order[a], order[b]))
  }

  /** One step of a stable sort by falling height: behind everything that is at least as high. */
  method InsertByHeight(undo: map<nat, Undo>, sorted: seq<nat>, id: nat) returns (longer: seq<nat>)
    requires id in undo && Sorted(undo, sorted) && forall j | j in sorted :: j < id
    ensures Sorted(undo, longer)
    ensures forall j :: j in longer <==> j in sorted || j == id
  {
    hide Before;
    var k := 0;
    while k < |sorted| && undo[sorted[k]].height >= undo[id].height
      invariant 0 <= k <= |sorted|
      invariant forall a | 0 <= a < k :: sorted[a] in undo && undo[sorted[a]].height >= undo[id].height
    {
      k := k + 1;
    }
    InsertKeepsSorted(undo, sorted, id, k);
    longer := sorted[..k] + [id] + sorted[k..];
    assert sorted == sorted[..k] + sorted[k..];
  }

  lemma InsertKeepsSorted(undo: map<nat, Undo>, sorted: seq<nat>, id: nat, k: nat)
    requires id in undo && Sorted(undo, sorted) && k <= |sorted| && forall j | j in sorted :: j < id
    requires forall a | 0 <= a < k :: undo[sorted[a]].height >= undo[id].height
    requires k < |sorted| ==> undo[sorted[k]].height < undo[id].height
    ensures Sorted(undo, sorted[..k] + [id] + sorted[k..])
  {
    var longer := sorted[..k] + [id] + sorted[k..];
    forall a, b | 0 <= a < b < |longer|
      ensures longer[a] in undo && longer[b] in undo && Before(undo, longer[a], longer[b])
    {
      var x := if a < k then a else a - 1;
      var y := if b < k then b else b - 1;
      if a == k {
        assert longer[b] == sorted[y];
        assert y > k ==> Before(undo, sorted[k], sorted[y]);
      } else if b == k {
        assert longer[a] == sorted[x] && sorted[x] in sorted;
      } else {
        assert longer[a] == sorted[x] && longer[b] == sorted[y] && Before(undo, sorted[x], sorted[y]);
      }
    }
  }

  class StateStore {
    const H: Hash
    /** The object ids this store is used with: no two of them collide in the tree. */
    ghost const universe: set<Str>

    var objects: map<Str, Object>
    var seals: map<Str, Str>
    var undoLogs: map<nat, Undo>
    var blocks: map<(Str, nat), Block>
    var transitions: map<Str, Transition>
    var lastBlock: map<Str, nat>
    var bridgeTransfers: map<Str, BridgeTransfer>
    var mintedProofs: map<Str, Str>
    var smt: SparseMerkleTree

    ghost function Tables(): Db
      reads this
    {
      Db(objects, seals, undoLogs, blocks, transitions, lastBlock)
    }

    ghost predicate Keyed()
      reads this
    {
      && (forall id | id in objects :: id in universe && objects[id].id == id)
      && (forall j | j in undoLogs ::
            undoLogs[j].objectId in universe &&
            (undoLogs[j].prev.Some? ==> undoLogs[j].prev.value.id == undoLogs[j].objectId))
    }

    ghost predicate Valid()
      reads this, smt
    {
      smt.Valid() && smt.H == H && Distinct(H, universe) && Keyed() && smt.leaves == LeavesOf(H, objects)
    }

    /** Opening a database rebuilds the tree from the persisted objects. */
    constructor Open(H: Hash, db: Db, transfers: map<Str, BridgeTransfer>, minted: map<Str, Str>,
                     ghost universe: set<Str>)
      requires Distinct(H, universe)
      requires forall id | id in db.objects :: id in universe && db.objects[id].id == id
      requires forall j | j in db.undo ::
                 db.undo[j].objectId in universe &&
                 (db.undo[j].prev.Some? ==> db.undo[j].prev.value.id == db.undo[j].objectId)
      ensures Valid() && fresh(smt) && this.H == H && this.universe == universe
      ensures Tables() == db && bridgeTransfers == transfers && mintedProofs == minted
    {
      this.H, this.universe := H, universe;
      objects, seals, undoLogs := db.objects, db.seals, db.undo;
      blocks, transitions, lastBlock := db.blocks, db.transitions, db.lastBlock;
      bridgeTransfers, mintedProofs := transfers, minted;
      var tree := TreeOf(H, db.objects);
      smt := tree;
    }

    /** A new tree over an objects table; the order of the updates does not matter. */
    static method TreeOf(H: Hash, objects: map<Str, Object>) returns (tree: SparseMerkleTree)
      requires Distinct(H, objects.Keys) && forall id | id in objects :: objects[id].id == id
      ensures fresh(tree) && tree.Valid() && tree.H == H && tree.leaves == LeavesOf(H, objects)
    {
      hide HashObject, LeavesOf, Put, SparseMerkleTree.Valid;
      tree := new SparseMerkleTree(H);
      var rest := objects.Keys;
      ghost var done: map<Str, Object> := map[];
      NoLeaves(H);
      while rest != {}
        invariant rest <= objects.Keys && done == objects - rest
        invariant fresh(tree) && tree.Valid() && tree.H == H && tree.leaves == LeavesOf(H, done)
        decreases rest
      {
        var id :| id in rest;
        rest := rest - {id};
        assert done.Keys + {id} <= objects.Keys;
        PutObject(H, done, objects[id]);
        tree.Update(H(id), HashObject(H, objects[id]));
        done := done[id := objects[id]];
      }
      assert done == objects;
    }

    method SaveObject(obj: Object)
      requires Valid() && obj.id in universe
      modifies this`objects, this`seals, smt
      ensures Valid() && Tables() == Ledger.SaveObject(old(Tables()), obj)
    {
      hide HashObject, LeavesOf, Put, SparseMerkleTree.Valid, Distinct;
      if obj.id in objects && objects[obj.id].seal != obj.seal {
        seals := seals - {objects[obj.id].seal};
      }
      ghost var before := objects;
      objects := objects[obj.id := obj];
      seals := seals[obj.seal := obj.id];
      DistinctSubset(H, universe, before.Keys + {obj.id});
      PutObject(H, before, obj);
      smt.Update(H(obj.id), HashObject(H, obj));
    }

    method GetObjectBySeal(seal: Str) returns (obj: Option<Object>)
      ensures obj == if seal in seals then Get(objects, seals[seal]) else None
      ensures Coherent(objects, seals) ==>
                (obj.Some? ==> obj.value.seal == seal) &&
                  (obj.None? ==> forall id | id in objects :: objects[id].seal != seal)
    {
      if seal in seals && seals[seal] in objects {
        return Some(objects[seals[seal]]);
      }
      return None;
    }

    method SaveUndoLog(id: nat, undo: Undo)
      requires Valid() && undo.objectId in universe && (undo.prev.Some? ==> undo.prev.value.id == undo.objectId)
      modifies this`undoLogs
      ensures Valid() && undoLogs == old(undoLogs)[id := undo]
    {
      undoLogs := undoLogs[id := undo];
    }

    method SaveTransition(trans: Transition)
      requires Valid()
      modifies this`transitions
      ensures Valid() && transitions == old(transitions)[trans.txid := trans]
    {
      transitions := transitions[trans.txid := trans];
    }

    /** Save a block record under the current state root and move the sync mark. */
    method CloseBlock(chain: Str, h: nat, hash: Str)
      requires Valid()
      modifies this`blocks, this`lastBlock, smt`cachedRoot, smt`dirty
      ensures Valid()
      ensures blocks == old(blocks)[(chain, h) := Block(hash, RootOf(H, objects))] &&
              lastBlock == old(lastBlock)[chain := h]
    {
      hide SparseMerkleTree.Valid, LeavesOf;
      var root := smt.Root();
      blocks := blocks[(chain, h) := Block(hash, root)];
      lastBlock := lastBlock[chain := h];
    }

    /** The undo records above `t`, collected in key order and stably sorted by falling height. */
    method SortedUndo(chain: Str, t: nat) returns (order: seq<nat>)
      ensures IsOrder(undoLogs, Above(undoLogs, chain, t), order)
    {
      hide Before;
      var rest := undoLogs.Keys;
      order := [];
      while rest != {}
        invariant rest <= undoLogs.Keys
        invariant forall i, j | i in undoLogs && i !in rest && j in rest :: i < j
        invariant forall j :: j in order <==> j in Above(undoLogs, chain, t) && j !in rest
        invariant Sorted(undoLogs, order)
        decreases rest
      {
        var id := SmallestKey(rest);
        if undoLogs[id].chain == chain && undoLogs[id].height > t {
          order := InsertByHeight(undoLogs, order, id);
        }
        rest := rest - {id};
      }
    }

    /** Undo a create (drop the object and its seal) or an update (put the earlier record and seal back). */
    method ApplyUndo(log: Undo)
      requires Keyed() && log.objectId in universe && (log.prev.Some? ==> log.prev.value.id == log.objectId)
      modifies this`objects, this`seals
      ensures Keyed() && Tables() == UndoOne(old(Tables()), log)
    {
      if log.objectId in objects {
        seals := seals - {objects[log.objectId].seal};
      }
      match log.prev {
        case None =>
          objects := objects - {log.objectId};
        case Some(prev) =>
          objects := objects[log.objectId := prev];
          seals := seals[prev.seal := log.objectId];
      }
    }

    method ApplyUndoLogs(order: seq<nat>)
      requires Keyed() && forall j | j in order :: j in undoLogs
      modifies this`objects, this`seals
      ensures Keyed() && Tables() == UndoAll(old(Tables()), order)
    {
      hide UndoOne, UndoAll;
      ghost var before := Tables();
      UndoAllNone(before, order);
      for i := 0 to |order|
        invariant undoLogs == before.undo && Keyed()
        invariant Tables() == UndoAll(before, order[..i])
      {
        UndoAllSnoc(before, order, i);
        ApplyUndo(undoLogs[order[i]]);
      }
      assert order[..|order|] == order;
    }

    /** Delete the undo, block and transition records above `t` and reset the sync mark. */
    method Trim(chain: Str, t: nat, order: seq<nat>)
      requires IsOrder(undoLogs, Above(undoLogs, chain, t), order) && Keyed()
      modifies this`undoLogs, this`blocks, this`transitions, this`lastBlock
      ensures Tables() == Trimmed(old(Tables()), chain, t) && Keyed()
    {
      hide Before, BlocksUpTo, TransitionsUpTo;
      assert (set j | j in order) == Above(undoLogs, chain, t);
      undoLogs := undoLogs - (set j | j in order);
      blocks := BlocksUpTo(blocks, chain, t);
      transitions := TransitionsUpTo(transitions, t);
      lastBlock := lastBlock[chain := t];
    }

    method RollbackToBlock(chain: Str, t: nat) returns (rolledBack: nat)
      requires Valid()
      modifies this`objects, this`seals, this`undoLogs, this`blocks, this`transitions, this`lastBlock, this`smt
      ensures Valid() && fresh(smt)
      ensures RolledBack(old(Tables()), chain, t, Tables())
    {
      hide Before, LeavesOf, UndoAll, SparseMerkleTree.Valid, Trimmed;
      var order := SortedUndo(chain, t);
      OrderInUndo(Tables(), chain, t, order);
      ApplyUndoLogs(order);
      Trim(chain, t, order);
      DistinctSubset(H, universe, objects.Keys);
      smt := TreeOf(H, objects);
      rolledBack := |order|;
    }

    /** Record that `objectId` was minted by `transferId`, unless it already was. */
    method CheckAndInsertMintedProof(objectId: Str, transferId: Str) returns (inserted: bool)
      modifies this`mintedProofs
      ensures old(Valid()) ==> Valid()
      ensures inserted <==> objectId !in old(mintedProofs)
      ensures mintedProofs == if inserted then old(mintedProofs)[objectId := transferId] else old(mintedProofs)
    {
      if objectId in mintedProofs {
        return false;
      }
      mintedProofs := mintedProofs[objectId := transferId];
      return true;
    }

    method SaveBridgeTransfer(transfer: BridgeTransfer)
      modifies this`bridgeTransfers
      ensures old(Valid()) ==> Valid()
      ensures bridgeTransfers == old(bridgeTransfers)[transfer.id := transfer]
    {
      bridgeTransfers := bridgeTransfers[transfer.id := transfer];
    }
  }

  lemma NoLeaves(H: Hash)
    ensures LeavesOf(H, map[]) == map[]
  {
  }

  lemma DistinctSubset(H: Hash, ids: set<Str>, some: set<Str>)
    requires Distinct(H, ids) && some <= ids
    ensures Distinct(H, some)
  {
  }

  lemma UndoAllNone(db: Db, order: seq<nat>)
    requires forall j | j in order :: j in db.undo
    ensures UndoAll(db, order[..0]) == db
  {
  }

  lemma UndoAllSnoc(db: Db, order: seq<nat>, i: nat)
    requires i < |order| && forall j | j in order :: j in db.undo
    ensures order[i] in db.undo
    ensures forall j | j in order[..i] :: j in db.undo
    ensures forall j | j in order[..i + 1] :: j in db.undo
    ensures UndoAll(db, order[..i + 1]) == UndoOne(UndoAll(db, order[..i]), db.undo[order[i]])
  {
    assert order[..i + 1][..i] == order[..i];
    assert order[i] in order;
  }
}
