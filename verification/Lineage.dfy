/**
 Single-use seals: on a scanned chain every object's transitions form one unbroken line from its
 creation seal to its current one, and no seal is ever spent twice.
 */
module Lineage {
  import opened Bytes
  import opened Ledger
  import opened Scanner
  import opened Reorg

  /**
   `stops` are the seals object `id` has had, in order, and `path` the transitions between them. The first
   seal is that of the transaction the object is named after, the one that created it.
   */
  ghost predicate Line(transitions: map<Str, Transition>, seen: set<Str>, id: Str, seal: Str, stops: seq<Str>,
                       path: seq<Transition>)
  {
    && |stops| == |path| + 1 && stops[|path|] == seal && |stops[0]| >= 16 && id == ObjectId(stops[0])
    && (forall i | 0 <= i < |path| :: Links(transitions, id, stops[i], stops[i + 1], path[i]))
    && (forall x | x in transitions && transitions[x].objectId == id :: transitions[x] in path)
    && (forall i | 0 <= i < |stops| :: IssuedBy(seen, stops[i]))
    && (forall i, j | 0 <= i < j < |stops| :: stops[i] != stops[j])
  }

  /** Recorded transition `t` takes object `id` from one seal to the next. */
  ghost predicate Links(transitions: map<Str, Transition>, id: Str, prevSeal: Str, newSeal: Str, t: Transition) {
    && t.objectId == id && t.prevSeal == prevSeal && t.newSeal == newSeal
    && t.txid in transitions && transitions[t.txid] == t
  }

  /** The seal carries the id of a transaction that has been seen. */
  ghost predicate IssuedBy(seen: set<Str>, seal: Str) {
    |seal| >= 64 && seal[..64] in seen
  }

  ghost predicate HasLine(db: Db, seen: set<Str>, id: Str, seal: Str) {
    exists stops: seq<Str>, path: seq<Transition> :: Line(db.transitions, seen, id, seal, stops, path)
  }

  ghost predicate Traced(db: Db, seen: set<Str>) {
    && (forall id | id in db.objects :: HasLine(db, seen, id, db.objects[id].seal))
    && (forall x | x in db.transitions ::
          db.transitions[x].txid == x && db.transitions[x].objectId in db.objects &&
          Holds(db, db.transitions[x].objectId, db.transitions[x].prevSeal))
  }

  /** A new transition extends its object's line; other lines are not disturbed. */
  lemma LineGrows(a: map<Str, Transition>, b: map<Str, Transition>, seen: set<Str>, t: Transition, id: Str, seal: Str,
                  stops: seq<Str>, path: seq<Transition>)
    requires Line(a, seen, id, seal, stops, path)
    requires t.txid !in a && t.txid !in seen && b == a[t.txid := t]
    requires t.objectId == id ==> t.prevSeal == seal && |t.newSeal| >= 64 && t.newSeal[..64] == t.txid
    ensures t.objectId != id ==> Line(b, seen + {t.txid}, id, seal, stops, path)
    ensures t.objectId == id ==> Line(b, seen + {t.txid}, id, t.newSeal, stops + [t.newSeal], path + [t])
  {
    hide ObjectId, Line;
    if t.objectId == id {
      OwnLine(a, b, seen, t, id, seal, stops, path);
    } else {
      OtherLine(a, b, seen, t, id, seal, stops, path);
    }
  }

  lemma OwnLine(a: map<Str, Transition>, b: map<Str, Transition>, seen: set<Str>, t: Transition, id: Str, seal: Str,
                stops: seq<Str>, path: seq<Transition>)
    requires Line(a, seen, id, seal, stops, path)
    requires t.txid !in a && t.txid !in seen && b == a[t.txid := t]
    requires t.objectId == id && t.prevSeal == seal && |t.newSeal| >= 64 && t.newSeal[..64] == t.txid
    ensures Line(b, seen + {t.txid}, id, t.newSeal, stops + [t.newSeal], path + [t])
  {
    hide ObjectId, Links, IssuedBy;
    var longer, further, seen' := stops + [t.newSeal], path + [t], seen + {t.txid};
    assert forall x | x in path :: x in further;
    assert further[|path|] == t;
    forall i | 0 <= i < |stops| ensures IssuedBy(seen', stops[i]) && stops[i] != t.newSeal {
      IssuedStill(seen, t.txid, stops[i], t.newSeal);
    }
    IssuedNow(seen, t.txid, t.newSeal);
    forall i | 0 <= i < |path| ensures Links(b, id, longer[i], longer[i + 1], further[i]) {
      LinksStill(a, b, t, id, stops[i], stops[i + 1], path[i]);
    }
    LinksNow(b, t);
  }

  lemma IssuedStill(seen: set<Str>, txid: Str, seal: Str, newer: Str)
    requires IssuedBy(seen, seal) && txid !in seen && |newer| >= 64 && newer[..64] == txid
    ensures IssuedBy(seen + {txid}, seal) && seal != newer
  {
  }

  lemma IssuedNow(seen: set<Str>, txid: Str, seal: Str)
    requires |seal| >= 64 && seal[..64] == txid
    ensures IssuedBy(seen + {txid}, seal)
  {
  }

  lemma LinksStill(a: map<Str, Transition>, b: map<Str, Transition>, t: Transition, id: Str, prevSeal: Str,
                   newSeal: Str, link: Transition)
    requires Links(a, id, prevSeal, newSeal, link) && t.txid !in a && b == a[t.txid := t]
    ensures Links(b, id, prevSeal, newSeal, link)
  {
  }

  lemma LinksNow(b: map<Str, Transition>, t: Transition)
    requires t.txid in b && b[t.txid] == t
    ensures Links(b, t.objectId, t.prevSeal, t.newSeal, t)
  {
  }

  lemma OtherLine(a: map<Str, Transition>, b: map<Str, Transition>, seen: set<Str>, t: Transition, id: Str, seal: Str,
                  stops: seq<Str>, path: seq<Transition>)
    requires Line(a, seen, id, seal, stops, path)
    requires t.txid !in a && b == a[t.txid := t] && t.objectId != id
    ensures Line(b, seen + {t.txid}, id, seal, stops, path)
  {
    hide ObjectId;
  }

  lemma LineWidens(a: map<Str, Transition>, seen: set<Str>, x: Str, id: Str, seal: Str, stops: seq<Str>,
                   path: seq<Transition>)
    requires Line(a, seen, id, seal, stops, path)
    ensures Line(a, seen + {x}, id, seal, stops, path)
  {
  }

  lemma NewLine(a: map<Str, Transition>, seen: set<Str>, txid: Str, id: Str, seal: Str)
    requires forall x | x in a :: a[x].objectId != id
    requires |seal| >= 64 && seal[..64] == txid && id == ObjectId(seal)
    ensures Line(a, seen + {txid}, id, seal, [seal], [])
  {
  }

  lemma StepTraced(env: Env, db: Db, seen: set<Str>, tx: Tx, h: nat)
    requires |tx.txid| == 64 && Inv(env, db, seen, h) && FreshTx(env, db, seen, tx, h) && Traced(db, seen)
    ensures Traced(Step(env, db, tx, h), seen + {tx.txid})
  {
    hide TxEffect, Apply, Line, Holds, Coherent, SealsOwned, SaveObject;
    var e := TxEffect(env, db, tx, h);
    var db' := Apply(db, e);
    ApplyNothing(db);
    if e.Nothing? {
      forall id | id in db.objects ensures HasLine(db, seen + {tx.txid}, id, db.objects[id].seal) {
        var stops, path :| Line(db.transitions, seen, id, db.objects[id].seal, stops, path);
        LineWidens(db.transitions, seen, tx.txid, id, db.objects[id].seal, stops, path);
      }
    } else {
      EffectIsShaped(env, db, tx, h);
      ApplyGet(db, e, e.undo.objectId);
      forall x | x in db'.transitions
        ensures db'.transitions[x].txid == x && db'.transitions[x].objectId in db'.objects
        ensures Holds(db', db'.transitions[x].objectId, db'.transitions[x].prevSeal)
      {
        TransitionHeld(env, db, tx, h, e, x);
      }
      forall id | id in db'.objects ensures HasLine(db', seen + {tx.txid}, id, db'.objects[id].seal) {
        ObjectLine(env, db, seen, tx, h, e, id);
      }
    }
  }

  lemma TransitionHeld(env: Env, db: Db, tx: Tx, h: nat, e: Effect, x: Str)
    requires |tx.txid| == 64 && e.Wrote? && Shaped(env, db.objects, tx, h, e) && e.undoId !in db.undo
    requires e.undo.prev.None? ==> e.undo.objectId !in db.objects
    requires x in Apply(db, e).transitions
    requires x in db.transitions ==> db.transitions[x].txid == x && db.transitions[x].objectId in db.objects &&
                                     Holds(db, db.transitions[x].objectId, db.transitions[x].prevSeal)
    requires tx.txid !in db.transitions
    ensures var db' := Apply(db, e);
            && db'.transitions[x].txid == x && db'.transitions[x].objectId in db'.objects
            && Holds(db', db'.transitions[x].objectId, db'.transitions[x].prevSeal)
  {
    hide Apply;
    var db' := Apply(db, e);
    ApplyGet(db, e, e.undo.objectId);
    assert e.undoId in db'.undo && db'.undo[e.undoId] == e.undo;
    if x in db.transitions {
      var id, s := db.transitions[x].objectId, db.transitions[x].prevSeal;
      ApplyGet(db, e, id);
      HoldsOn(env, db, tx, h, e, id, s);
    }
  }

  /** What an object held before a transaction it holds after, if only in its undo records. */
  lemma HoldsOn(env: Env, db: Db, tx: Tx, h: nat, e: Effect, id: Str, s: Str)
    requires |tx.txid| == 64 && e.Wrote? && Shaped(env, db.objects, tx, h, e) && e.undoId !in db.undo &&
             Holds(db, id, s)
    requires e.undo.prev.None? ==> e.undo.objectId != id || id !in db.objects
    ensures Holds(Apply(db, e), id, s)
  {
    hide Apply;
    var db' := Apply(db, e);
    ApplyGet(db, e, id);
    if id in db.objects && db.objects[id].seal == s {
      if id == e.undo.objectId {
        assert e.undoId in db'.undo && db'.undo[e.undoId].prev == Some(db.objects[id]);
      }
    } else {
      var j :| j in db.undo && db.undo[j].objectId == id && db.undo[j].prev.Some? && db.undo[j].prev.value.seal == s;
      assert j in db'.undo && db'.undo[j] == db.undo[j];
    }
  }

  lemma ObjectLine(env: Env, db: Db, seen: set<Str>, tx: Tx, h: nat, e: Effect, id: Str)
    requires |tx.txid| == 64 && tx.txid !in seen && e.Wrote? && Shaped(env, db.objects, tx, h, e) && Traced(db, seen)
    requires e.undo.prev.None? ==> e.undo.objectId !in db.objects
    requires tx.txid !in db.transitions && id in Apply(db, e).objects
    ensures HasLine(Apply(db, e), seen + {tx.txid}, id, Apply(db, e).objects[id].seal)
  {
    hide Apply, Line, Holds;
    var db' := Apply(db, e);
    ApplyGet(db, e, id);
    if id in db.objects {
      var stops, path :| Line(db.transitions, seen, id, db.objects[id].seal, stops, path);
      if e.trans.Some? {
        LineGrows(db.transitions, db'.transitions, seen, e.trans.value, id, db.objects[id].seal, stops, path);
      } else {
        LineWidens(db.transitions, seen, tx.txid, id, db.objects[id].seal, stops, path);
      }
    } else {
      assert db'.transitions == db.transitions;
      assert e.obj.value.seal[..16] == tx.txid[..16];
      NewLine(db.transitions, seen, tx.txid, id, e.obj.value.seal);
    }
  }

  lemma {:induction false} TxsTraced(env: Env, db: Db, seen: set<Str>, txs: seq<Tx>, h: nat)
    requires WellFormed(txs) && FreshTxs(env, db, seen, txs, h) && Traced(db, seen)
    requires Inv(env, db, seen, h) && (forall j | j in db.undo :: db.undo[j].height < h)
    ensures Traced(ScanTxs(env, db, txs, h), seen + TxIds(txs))
  {
    hide Inv, During, TopsExact, Step, FreshTx, OrderedTx, Traced;
    if txs == [] {
      assert seen + TxIds(txs) == seen;
    } else {
      var init, tx := txs[..|txs| - 1], txs[|txs| - 1];
      TxsTraced(env, db, seen, init, h);
      TxsKeep(env, db, seen, init, h);
      StepTraced(env, ScanTxs(env, db, init, h), seen + TxIds(init), tx, h);
      TxIdsSnoc(txs);
      assert seen + TxIds(txs) == seen + TxIds(init) + {tx.txid};
    }
  }

  /** Every object of a scanned chain has an unbroken line of transitions behind it. */
  lemma {:induction false} ScanTraced(env: Env, first: nat, l1: Chain, n: nat)
    requires WellFormedChain(l1) && n < |l1| && FreshChain(env, first, l1, n)
    ensures Traced(Scan(env, first, l1, n), Seen(first, l1, n))
  {
    hide Inv, ScanTxs, FreshTxs, Traced, CloseBlock;
    if n < first || n == 0 {
      NothingTraced();
    } else {
      var db0, seen := Scan(env, first, l1, n - 1), Seen(first, l1, n - 1);
      ScanTraced(env, first, l1, n - 1);
      ScanInv(env, first, l1, n - 1);
      InvMonotone(env, db0, seen, n - 1, n);
      BelowHeight(env, db0, seen, n);
      TxsTraced(env, db0, seen, l1[n].txs, n);
      CloseTraced(env, ScanTxs(env, db0, l1[n].txs, n), seen + TxIds(l1[n].txs), l1[n].hash, n);
    }
  }

  lemma NothingTraced()
    ensures Traced(EMPTY, {})
  {
  }

  lemma BelowHeight(env: Env, db: Db, seen: set<Str>, n: nat)
    requires n > 0 && Inv(env, db, seen, n - 1)
    ensures forall j | j in db.undo :: db.undo[j].height < n
  {
    hide Coherent, SealsOwned, Holds;
  }

  lemma CloseTraced(env: Env, db: Db, seen: set<Str>, hash: Str, h: nat)
    requires Traced(db, seen)
    ensures Traced(CloseBlock(env, db, hash, h), seen)
  {
    hide Line, RootOf;
    var db' := CloseBlock(env, db, hash, h);
    assert forall id, s | Holds(db, id, s) :: Holds(db', id, s);
    forall id | id in db'.objects ensures HasLine(db', seen, id, db'.objects[id].seal) {
      assert HasLine(db, seen, id, db.objects[id].seal);
    }
  }

  /** No seal is spent by two transactions. */
  lemma SealSpentOnce(env: Env, first: nat, l1: Chain, n: nat, x: Str, y: Str)
    requires WellFormedChain(l1) && n < |l1| && FreshChain(env, first, l1, n)
    requires var db := Scan(env, first, l1, n); x in db.transitions && y in db.transitions && x != y
    ensures var db := Scan(env, first, l1, n); db.transitions[x].prevSeal != db.transitions[y].prevSeal
  {
    hide Scan, FreshChain, Coherent, Holds;
    var db, seen := Scan(env, first, l1, n), Seen(first, l1, n);
    ScanTraced(env, first, l1, n);
    ScanInv(env, first, l1, n);
    SpentOnce(db, seen, x, y);
  }

  lemma SpentOnce(db: Db, seen: set<Str>, x: Str, y: Str)
    requires Traced(db, seen) && SealsOwned(db) && x in db.transitions && y in db.transitions && x != y
    ensures db.transitions[x].prevSeal != db.transitions[y].prevSeal
  {
    hide Holds, ObjectId, IssuedBy;
    var id := db.transitions[x].objectId;
    if db.transitions[y].objectId == id {
      assert HasLine(db, seen, id, db.objects[id].seal);
      var stops, path :| Line(db.transitions, seen, id, db.objects[id].seal, stops, path);
      var i :| 0 <= i < |path| && path[i] == db.transitions[x];
      var j :| 0 <= j < |path| && path[j] == db.transitions[y];
      assert Links(db.transitions, id, stops[i], stops[i + 1], path[i]);
      assert Links(db.transitions, id, stops[j], stops[j + 1], path[j]);
      assert i != j && stops[i] != stops[j];
    }
  }
}
