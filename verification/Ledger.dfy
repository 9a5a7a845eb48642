/**
 The tables of the state store as one value: objects, the seal index, undo logs, blocks and
 transitions, with the effect of a save, of one undo record and of a whole rollback.
 */
module Ledger {
  import opened Bytes
  import opened Smt

  datatype Object = Object(id: Str, codeHash: Str, seal: Str, satoshis: nat, owner: Str, state: Bytes,
                           createdAt: nat, updatedAt: nat)

  /** An undo record; `prev` is `None` for CREATE and the full earlier record for UPDATE. */
  datatype Undo = Undo(chain: Str, height: nat, objectId: Str, prev: Option<Object>)

  datatype Block = Block(hash: Str, stateRoot: Digest)

  datatype Transition = Transition(txid: Str, objectId: Str, prevSeal: Str, newSeal: Str, caller: Str, callee: Str,
                                   args: Bytes, newState: Bytes, satoshis: nat, height: nat, gas: nat)

  datatype Db = Db(objects: map<Str, Object>, seals: map<Str, Str>, undo: map<nat, Undo>,
                   blocks: map<(Str, nat), Block>, transitions: map<Str, Transition>, lastBlock: map<Str, nat>)

  const EMPTY: Db := Db(map[], map[], map[], map[], map[], map[])

  function Get(objects: map<Str, Object>, id: Str): Option<Object> {
    if id in objects then Some(objects[id]) else None
  }

  // ----- the seal index

  /** The seals table is the exact inverse of the objects' seals, and objects sit under their own id. */
  ghost predicate Coherent(objects: map<Str, Object>, seals: map<Str, Str>) {
    && (forall id | id in objects :: objects[id].id == id && objects[id].seal in seals && seals[objects[id].seal] == id)
    && (forall s | s in seals :: seals[s] in objects && objects[seals[s]].seal == s)
  }

  /** A coherent index is determined by the objects. */
  lemma CoherentUnique(objects: map<Str, Object>, a: map<Str, Str>, b: map<Str, Str>)
    requires Coherent(objects, a) && Coherent(objects, b)
    ensures a == b
  {
    assert forall s | s in a :: objects[a[s]].seal == s && s in b && b[s] == a[s];
    assert forall s | s in b :: objects[b[s]].seal == s && s in a && a[s] == b[s];
  }

  function SaveObject(db: Db, obj: Object): Db {
    var freed := if obj.id in db.objects && db.objects[obj.id].seal != obj.seal then {db.objects[obj.id].seal} else {};
    db.(objects := db.objects[obj.id := obj], seals := (db.seals - freed)[obj.seal := obj.id])
  }

  /** Saving keeps the index an inverse exactly when nobody else holds the new seal. */
  lemma SaveCoherent(db: Db, obj: Object)
    requires Coherent(db.objects, db.seals)
    ensures var db' := SaveObject(db, obj);
            Coherent(db'.objects, db'.seals) <==> (obj.seal !in db.seals || db.seals[obj.seal] == obj.id)
  {
    var db' := SaveObject(db, obj);
    if obj.seal in db.seals && db.seals[obj.seal] != obj.id {
      var other := db.seals[obj.seal];
      assert db'.objects[other].seal == obj.seal && db'.seals[obj.seal] != other;
    } else {
      forall id | id in db'.objects && id != obj.id
        ensures db'.objects[id].id == id && db'.objects[id].seal in db'.seals && db'.seals[db'.objects[id].seal] == id
      {
        assert db.seals[db.objects[id].seal] == id;
      }
      forall s | s in db'.seals
        ensures db'.seals[s] in db'.objects && db'.objects[db'.seals[s]].seal == s
      {
        if s != obj.seal {
          assert db.objects[db.seals[s]].seal == s;
        }
      }
    }
  }

  // ----- undoing

  function UndoObjects(objects: map<Str, Object>, u: Undo): map<Str, Object> {
    match u.prev
    case None => objects - {u.objectId}
    case Some(p) => objects[u.objectId := p]
  }

  function UndoSeals(objects: map<Str, Object>, seals: map<Str, Str>, u: Undo): map<Str, Str> {
    var freed := if u.objectId in objects then {objects[u.objectId].seal} else {};
    match u.prev
    case None => seals - freed
    case Some(p) => (seals - freed)[p.seal := u.objectId]
  }

  /** One undo record applied; the undo table itself is trimmed at the end of a rollback. */
  function UndoOne(db: Db, u: Undo): Db {
    db.(objects := UndoObjects(db.objects, u), seals := UndoSeals(db.objects, db.seals, u))
  }

  function UndoAll(db: Db, order: seq<nat>): (db': Db)
    requires forall j | j in order :: j in db.undo
    ensures db' == db.(objects := db'.objects, seals := db'.seals)
  {
    if order == [] then db
    else
      assert order[|order| - 1] in order;
      UndoOne(UndoAll(db, order[..|order| - 1]), db.undo[order[|order| - 1]])
  }

  /** The undo records of `chain` above height `t`. */
  function Above(undo: map<nat, Undo>, chain: Str, t: nat): set<nat> {
    set j | j in undo && undo[j].chain == chain && undo[j].height > t
  }

  /** Newest block first and, within a block, by rising id: a stable sort by height of the table's key order. */
  predicate Before(undo: map<nat, Undo>, i: nat, j: nat)
    requires i in undo && j in undo
  {
    undo[i].height > undo[j].height || (undo[i].height == undo[j].height && i < j)
  }

  ghost predicate IsOrder(undo: map<nat, Undo>, ids: set<nat>, order: seq<nat>) {
    && (forall j | j in order :: j in undo)
    && (forall a, b | 0 <= a < b < |order| :: Before(undo, order[a], order[b]))
    && (forall j :: j in order <==> j in ids)
  }

  function Trimmed(db: Db, chain: Str, t: nat): Db {
    db.(undo := db.undo - Above(db.undo, chain, t),
        blocks := BlocksUpTo(db.blocks, chain, t),
        transitions := TransitionsUpTo(db.transitions, t),
        lastBlock := db.lastBlock[chain := t])
  }

  /** What `rollback_to_block` does to the tables. */
  ghost predicate RolledBack(db: Db, chain: Str, t: nat, db': Db) {
    exists order: seq<nat> ::
      IsOrder(db.undo, Above(db.undo, chain, t), order) && db' == Trimmed(UndoAll(db, order), chain, t)
  }

  lemma OrderInUndo(db: Db, chain: Str, t: nat, order: seq<nat>)
    requires IsOrder(db.undo, Above(db.undo, chain, t), order)
    ensures forall i | 0 <= i < |order| :: order[i] in db.undo
    ensures forall j | j in order :: j in db.undo
  {
  }

  // ----- what a rollback leaves

  /** Entry `j` is the last one that a rollback to `t` applies to object `id`: lowest block, highest id. */
  ghost predicate Final(undo: map<nat, Undo>, chain: Str, t: nat, id: Str, j: nat) {
    && j in Above(undo, chain, t) && undo[j].objectId == id
    && forall i | i in Above(undo, chain, t) && undo[i].objectId == id && i != j :: Before(undo, i, j)
  }

  lemma UndoOneGet(db: Db, u: Undo, id: Str)
    ensures Get(UndoOne(db, u).objects, id) == if id == u.objectId then u.prev else Get(db.objects, id)
  {
  }

  /** The last entry for `id` in an order, if any, decides the object; otherwise it is untouched. */
  ghost function LastFor(undo: map<nat, Undo>, order: seq<nat>, id: Str): (j: Option<nat>)
    requires forall j | j in order :: j in undo
    ensures j.Some? ==> j.value in order && undo[j.value].objectId == id
    ensures j.None? ==> forall i | i in order :: undo[i].objectId != id
  {
    if order == [] then None
    else
      var last, init := order[|order| - 1], order[..|order| - 1];
      assert order == init + [last];
      if undo[last].objectId == id then Some(last) else LastFor(undo, init, id)
  }

  lemma {:induction false} UndoAllGet(db: Db, order: seq<nat>, id: Str)
    requires forall j | j in order :: j in db.undo
    ensures Get(UndoAll(db, order).objects, id) ==
            match LastFor(db.undo, order, id)
            case None => Get(db.objects, id)
            case Some(j) => db.undo[j].prev
  {
    hide UndoOne, Get;
    if order != [] {
      var last, init := order[|order| - 1], order[..|order| - 1];
      assert order == init + [last];
      UndoAllGet(db, init, id);
      UndoOneGet(UndoAll(db, init), db.undo[last], id);
    }
  }

  /** In a sorted order the last entry for an object is its final one. */
  lemma {:induction false} LastIsFinal(undo: map<nat, Undo>, order: seq<nat>, id: Str, j: nat)
    requires forall i | i in order :: i in undo
    requires forall a, b | 0 <= a < b < |order| :: Before(undo, order[a], order[b])
    requires j in order && undo[j].objectId == id
    requires forall i | i in order && undo[i].objectId == id && i != j :: Before(undo, i, j)
    ensures LastFor(undo, order, id) == Some(j)
  {
    var k :| 0 <= k < |order| && order[k] == j;
    var last, init := order[|order| - 1], order[..|order| - 1];
    assert order == init + [last] && last in order;
    if k < |order| - 1 {
      assert Before(undo, j, last);
      assert init[k] == j;
      assert forall a | 0 <= a < |init| :: order[a] == init[a];
      LastIsFinal(undo, init, id, j);
    }
  }

  lemma OrderDecides(db: Db, chain: Str, t: nat, order: seq<nat>, id: Str)
    requires IsOrder(db.undo, Above(db.undo, chain, t), order)
    ensures (forall i | i in Above(db.undo, chain, t) :: db.undo[i].objectId != id) ==>
              Get(UndoAll(db, order).objects, id) == Get(db.objects, id)
    ensures forall j | Final(db.undo, chain, t, id, j) :: Get(UndoAll(db, order).objects, id) == db.undo[j].prev
  {
    hide Before, UndoAll, Get;
    UndoAllGet(db, order, id);
    forall j | Final(db.undo, chain, t, id, j)
      ensures Get(UndoAll(db, order).objects, id) == db.undo[j].prev
    {
      LastIsFinal(db.undo, order, id, j);
    }
  }

  /** Two sorted listings of one set of entries are the same listing. */
  lemma {:induction false} OrderUnique(undo: map<nat, Undo>, ids: set<nat>, x: seq<nat>, y: seq<nat>)
    requires IsOrder(undo, ids, x) && IsOrder(undo, ids, y)
    ensures x == y
    decreases |x|
  {
    assert x != [] ==> x[0] in ids;
    assert y != [] ==> y[0] in ids;
    if x != [] && y != [] {
      OrderHead(undo, ids, x, y[0]);
      OrderHead(undo, ids, y, x[0]);
      OrderTail(undo, ids, x);
      OrderTail(undo, ids, y);
      OrderUnique(undo, ids - {x[0]}, x[1..], y[1..]);
    }
  }

  lemma OrderHead(undo: map<nat, Undo>, ids: set<nat>, x: seq<nat>, j: nat)
    requires IsOrder(undo, ids, x) && x != [] && j in ids
    ensures x[0] in undo && j in undo && (j == x[0] || Before(undo, x[0], j))
  {
    assert j in x && x[0] in x;
    var a :| 0 <= a < |x| && x[a] == j;
  }

  lemma OrderTail(undo: map<nat, Undo>, ids: set<nat>, x: seq<nat>)
    requires IsOrder(undo, ids, x) && x != []
    ensures IsOrder(undo, ids - {x[0]}, x[1..])
  {
    forall j ensures j in x[1..] <==> j in ids - {x[0]} {
      if j in x[1..] {
        var a :| 1 <= a < |x| && x[a] == j;
        assert Before(undo, x[0], x[a]);
      }
      if j in ids - {x[0]} {
        assert j in x;
      }
    }
  }

  lemma RollbackDeterministic(db: Db, chain: Str, t: nat, x: Db, y: Db)
    requires RolledBack(db, chain, t, x) && RolledBack(db, chain, t, y)
    ensures x == y
  {
    var ids := Above(db.undo, chain, t);
    var a: seq<nat> :| IsOrder(db.undo, ids, a) && x == Trimmed(UndoAll(db, a), chain, t);
    var b: seq<nat> :| IsOrder(db.undo, ids, b) && y == Trimmed(UndoAll(db, b), chain, t);
    OrderUnique(db.undo, ids, a, b);
  }

  // ----- rolling back in stages

  lemma UndoOneFrame(a: Db, b: Db, u: Undo)
    requires a.objects == b.objects && a.seals == b.seals
    ensures UndoOne(a, u).objects == UndoOne(b, u).objects && UndoOne(a, u).seals == UndoOne(b, u).seals
  {
    hide UndoObjects, UndoSeals;
  }

  /** Only the tables that undoing reads matter to its result. */
  lemma {:induction false} UndoAllFrame(a: Db, b: Db, order: seq<nat>)
    requires a.objects == b.objects && a.seals == b.seals
    requires forall j | j in order :: j in a.undo && j in b.undo && a.undo[j] == b.undo[j]
    ensures UndoAll(a, order).objects == UndoAll(b, order).objects
    ensures UndoAll(a, order).seals == UndoAll(b, order).seals
  {
    hide UndoOne;
    if order != [] {
      var last, init := order[|order| - 1], order[..|order| - 1];
      assert order == init + [last];
      UndoAllFrame(a, b, init);
      UndoOneFrame(UndoAll(a, init), UndoAll(b, init), a.undo[last]);
    }
  }

  lemma {:induction false} UndoAllSplit(db: Db, x: seq<nat>, y: seq<nat>)
    requires forall j | j in x + y :: j in db.undo
    requires forall j | j in x :: j in db.undo
    requires forall j | j in y :: j in UndoAll(db, x).undo
    ensures UndoAll(db, x + y) == UndoAll(UndoAll(db, x), y)
    decreases |y|
  {
    if y == [] {
      assert x + y == x;
    } else {
      var init := y[..|y| - 1];
      assert (x + y)[..|x + y| - 1] == x + init;
      assert forall j | j in x + init :: j in x + y;
      UndoAllSplit(db, x, init);
    }
  }

  /** To `t1` and then to a lower `t2` is the same as straight to `t2`, from any tables. */
  lemma RollbackComposes(db: Db, chain: Str, t1: nat, t2: nat, mid: Db, end: Db)
    requires t2 <= t1 && RolledBack(db, chain, t1, mid) && RolledBack(mid, chain, t2, end)
    ensures RolledBack(db, chain, t2, end)
  {
    hide Before, UndoAll, BlocksUpTo, TransitionsUpTo;
    var x: seq<nat> :| IsOrder(db.undo, Above(db.undo, chain, t1), x) && mid == Trimmed(UndoAll(db, x), chain, t1);
    var y: seq<nat> :| IsOrder(mid.undo, Above(mid.undo, chain, t2), y) && end == Trimmed(UndoAll(mid, y), chain, t2);
    OrdersJoin(db, chain, t1, t2, x, mid, y);
    var one := UndoAll(db, x);
    assert forall j | j in y :: j in one.undo && j in mid.undo && one.undo[j] == mid.undo[j];
    UndoAllFrame(one, mid, y);
    UndoAllSplit(db, x, y);
    TrimTwice(db, chain, t1, t2, UndoAll(db, x + y), end);
  }

  lemma OrdersJoin(db: Db, chain: Str, t1: nat, t2: nat, x: seq<nat>, mid: Db, y: seq<nat>)
    requires t2 <= t1
    requires IsOrder(db.undo, Above(db.undo, chain, t1), x)
    requires mid.undo == db.undo - Above(db.undo, chain, t1)
    requires IsOrder(mid.undo, Above(mid.undo, chain, t2), y)
    ensures IsOrder(db.undo, Above(db.undo, chain, t2), x + y)
  {
    var z := x + y;
    assert forall j | j in y ::
             j in mid.undo && j in db.undo && mid.undo[j] == db.undo[j] && j !in Above(db.undo, chain, t1);
    forall a, b | 0 <= a < b < |z| ensures z[a] in db.undo && z[b] in db.undo && Before(db.undo, z[a], z[b]) {
      assert a < |x| ==> z[a] == x[a] && x[a] in x;
      assert a >= |x| ==> z[a] == y[a - |x|] && y[a - |x|] in y;
      assert b < |x| ==> z[b] == x[b] && x[b] in x;
      assert b >= |x| ==> z[b] == y[b - |x|] && y[b - |x|] in y;
      if b < |x| {
        assert Before(db.undo, x[a], x[b]);
      } else if a >= |x| {
        assert Before(mid.undo, y[a - |x|], y[b - |x|]);
      } else {
        assert z[a] in Above(db.undo, chain, t1) && z[b] in Above(mid.undo, chain, t2);
      }
    }
    forall j ensures j in z <==> j in Above(db.undo, chain, t2) {
      assert j in z <==> j in x || j in y;
    }
  }

  function BlocksUpTo(blocks: map<(Str, nat), Block>, chain: Str, t: nat): map<(Str, nat), Block> {
    map k | k in blocks && !(k.0 == chain && k.1 > t) :: blocks[k]
  }

  function TransitionsUpTo(transitions: map<Str, Transition>, t: nat): map<Str, Transition> {
    map x | x in transitions && transitions[x].height <= t :: transitions[x]
  }

  lemma TrimTwice(db: Db, chain: Str, t1: nat, t2: nat, undone: Db, end: Db)
    requires t2 <= t1 && undone == db.(objects := undone.objects, seals := undone.seals)
    requires var mid := Trimmed(db, chain, t1);
             end == Trimmed(mid, chain, t2).(objects := undone.objects, seals := undone.seals)
    ensures end == Trimmed(undone, chain, t2)
  {
    hide BlocksUpTo, TransitionsUpTo;
    assert BlocksUpTo(BlocksUpTo(db.blocks, chain, t1), chain, t2) == BlocksUpTo(db.blocks, chain, t2) by {
      BlocksTwice(db.blocks, chain, t1, t2);
    }
    assert TransitionsUpTo(TransitionsUpTo(db.transitions, t1), t2) == TransitionsUpTo(db.transitions, t2) by {
      TransitionsTwice(db.transitions, t1, t2);
    }
    assert end.undo == db.undo - Above(db.undo, chain, t2);
    assert end.lastBlock == undone.lastBlock[chain := t2];
  }

  lemma BlocksTwice(blocks: map<(Str, nat), Block>, chain: Str, t1: nat, t2: nat)
    requires t2 <= t1
    ensures BlocksUpTo(BlocksUpTo(blocks, chain, t1), chain, t2) == BlocksUpTo(blocks, chain, t2)
  {
  }

  lemma TransitionsTwice(transitions: map<Str, Transition>, t1: nat, t2: nat)
    requires t2 <= t1
    ensures TransitionsUpTo(TransitionsUpTo(transitions, t1), t2) == TransitionsUpTo(transitions, t2)
  {
  }

  // ----- undoing keeps the index

  /** Object `id` holds `seal` now, or will again once some undo record is applied. */
  ghost predicate Holds(db: Db, id: Str, seal: Str) {
    || (id in db.objects && db.objects[id].seal == seal)
    || (exists j ::
          j in db.undo && db.undo[j].objectId == id && db.undo[j].prev.Some? && db.undo[j].prev.value.seal == seal)
  }

  /** A seal belongs to one object, now and in every undo record. */
  ghost predicate SealsOwned(db: Db) {
    && (forall a, b, s | Holds(db, a, s) && Holds(db, b, s) :: a == b)
    && (forall j | j in db.undo && db.undo[j].prev.Some? :: db.undo[j].prev.value.id == db.undo[j].objectId)
  }

  lemma UndoOneCoherent(db: Db, j: nat)
    requires Coherent(db.objects, db.seals) && SealsOwned(db) && j in db.undo
    ensures var db' := UndoOne(db, db.undo[j]);
            Coherent(db'.objects, db'.seals) && SealsOwned(db')
  {
    var u := db.undo[j];
    var db' := UndoOne(db, u);
    forall id, s | Holds(db', id, s) ensures Holds(db, id, s) {
      if id in db'.objects && db'.objects[id].seal == s && id != u.objectId {
        assert db.objects[id].seal == s;
      }
    }
    if u.prev.Some? {
      assert Holds(db, u.objectId, u.prev.value.seal);
      assert u.prev.value.seal in db.seals ==> Holds(db, db.seals[u.prev.value.seal], u.prev.value.seal);
    }
    UndoOneIndex(db, u);
  }

  lemma UndoOneIndex(db: Db, u: Undo)
    requires Coherent(db.objects, db.seals)
    requires u.prev.Some? ==> u.prev.value.id == u.objectId
    requires u.prev.Some? && u.prev.value.seal in db.seals ==> db.seals[u.prev.value.seal] == u.objectId
    ensures var db' := UndoOne(db, u); Coherent(db'.objects, db'.seals)
  {
    var db' := UndoOne(db, u);
    forall id | id in db'.objects
      ensures db'.objects[id].id == id && db'.objects[id].seal in db'.seals && db'.seals[db'.objects[id].seal] == id
    {
      if id != u.objectId {
        assert db.seals[db.objects[id].seal] == id;
      }
    }
    forall s | s in db'.seals ensures db'.seals[s] in db'.objects && db'.objects[db'.seals[s]].seal == s {
      if u.prev.None? || s != u.prev.value.seal {
        assert db.objects[db.seals[s]].seal == s;
      }
    }
  }

  lemma {:induction false} UndoAllCoherent(db: Db, order: seq<nat>)
    requires Coherent(db.objects, db.seals) && SealsOwned(db)
    requires forall j | j in order :: j in db.undo
    ensures var db' := UndoAll(db, order); Coherent(db'.objects, db'.seals) && SealsOwned(db')
  {
    if order != [] {
      var init := order[..|order| - 1];
      UndoAllCoherent(db, init);
      assert order[|order| - 1] in order;
      UndoOneCoherent(UndoAll(db, init), order[|order| - 1]);
    }
  }

  // ----- the state root

  /** The bytes hashed for an object: its fields one after the other, without lengths in front. */
  function ObjectBytes(obj: Object): Bytes {
    obj.id + obj.codeHash + obj.seal + U64(obj.satoshis) + obj.owner + obj.state
  }

  function HashObject(H: Hash, obj: Object): Digest {
    H(ObjectBytes(obj))
  }

  /** No two of these ids share a key in the tree. */
  ghost predicate Distinct(H: Hash, ids: set<Str>) {
    forall a, b | a in ids && b in ids && H(a) == H(b) :: a == b
  }

  ghost function IdWith(H: Hash, ids: set<Str>, k: Digest): (id: Str)
    requires exists id | id in ids :: H(id) == k
    ensures id in ids && H(id) == k
  {
    var id :| id in ids && H(id) == k; id
  }

  ghost function KeysOf(H: Hash, ids: set<Str>): set<Digest> {
    set id | id in ids :: H(id)
  }

  /** The leaves a tree over these objects holds; the zero digest stands for no leaf. */
  ghost function LeavesOf(H: Hash, objects: map<Str, Object>): Leaves {
    map k | k in KeysOf(H, objects.Keys) && HashObject(H, objects[IdWith(H, objects.Keys, k)]) != ZERO ::
      HashObject(H, objects[IdWith(H, objects.Keys, k)])
  }

  ghost function RootOf(H: Hash, objects: map<Str, Object>): Digest {
    TreeRoot(H, LeavesOf(H, objects))
  }

  /** Writing an object's hash under its key takes the leaves of the old table to the leaves of the new. */
  lemma PutObject(H: Hash, objects: map<Str, Object>, obj: Object)
    requires Distinct(H, objects.Keys + {obj.id})
    ensures Put(LeavesOf(H, objects), H(obj.id), HashObject(H, obj)) == LeavesOf(H, objects[obj.id := obj])
  {
    hide HashObject;
    var objects' := objects[obj.id := obj];
    assert objects'.Keys == objects.Keys + {obj.id};
    var a, b := Put(LeavesOf(H, objects), H(obj.id), HashObject(H, obj)), LeavesOf(H, objects');
    forall k: Digest ensures LeafOf(a, k) == LeafOf(b, k) {
      if k in KeysOf(H, objects'.Keys) {
        var id := IdWith(H, objects'.Keys, k);
        if id in objects { assert IdWith(H, objects.Keys, k) == id; }
      }
    }
    SameLeaves(a, b);
  }
}
