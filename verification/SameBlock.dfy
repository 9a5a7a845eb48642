/**
 Two calls to one object in one block. The processor accepts such a block, and whether a rollback past it
 restores the object depends on nothing but the two undo ids, which mix in the transaction ids.
 */
module SameBlock {
  import opened Bytes
  import opened Ledger
  import opened Scanner
  import opened Reorg
  import opened Exactness
  import Envelope

  /** `{"op":"create"}` */
  const CREATE_JSON: Bytes := [123, 34, 111, 112, 34, 58, 34, 99, 114, 101, 97, 116, 101, 34, 125]
  /** `{"op":"transfer"}` */
  const CALL_JSON: Bytes := [123, 34, 111, 112, 34, 58, 34, 116, 114, 97, 110, 115, 102, 101, 114, 34, 125]

  /** The JSON reader reads the two metadata texts for what they say. */
  predicate ReadsOps(env: Env) {
    env.metaOf(CREATE_JSON) == NO_META.(op := Some(CREATE)) && env.metaOf(CALL_JSON) == NO_META.(op := Some(TRANSFER))
  }

  function Inscribed(json: Bytes): Envelope.Inscription {
    Envelope.Inscription(1, APPLICATION_JSON, json)
  }

  /** One output that carries the envelope and pays the fee. */
  function Output(env: Env, json: Bytes): TxOut {
    TxOut(env.minFee, Or(env.collector, []), Some(Envelope.Serialized(Inscribed(json))))
  }

  function CreateTx(env: Env, a: Str): Tx {
    Tx(a, [], [Output(env, CREATE_JSON)])
  }

  /** A call that spends the first output of transaction `a`. */
  function SpendTx(env: Env, b: Str, a: Str): Tx {
    Tx(b, [Outpoint(a, 0)], [Output(env, CALL_JSON)])
  }

  /** Block 1 creates an object; block 2 calls it twice, the second call spending the first one's output. */
  function Blocks(env: Env, a: Str, b: Str, c: Str): (l1: Chain)
    requires |a| == 64 && |b| == 64 && |c| == 64
    ensures |l1| == 3 && WellFormedChain(l1)
  {
    [L1Block([0], []), L1Block([1], [CreateTx(env, a)]), L1Block([2], [SpendTx(env, b, a), SpendTx(env, c, b)])]
  }

  // ----- the three effects

  lemma OutputParses(env: Env, json: Bytes)
    requires |json| < 100
    ensures Envelope.Parse(Output(env, json).code.value) == Some(Inscribed(json))
  {
    hide Envelope.Parse, Envelope.Serialized;
    Envelope.RoundTrip(Inscribed(json));
  }

  lemma OutputPays(env: Env, tx: Tx, json: Bytes)
    requires tx.vout == [Output(env, json)]
    ensures PaysFee(env, tx)
  {
    hide Envelope.Serialized;
    assert tx.vout[0].value >= env.minFee;
  }

  function Created(env: Env, a: Str): Object
    requires |a| == 64
  {
    Object(ObjectId(a), WASM_DEFAULT, Seal(a, 0), env.minFee, COINBASE, env.freshState(COINBASE), 1, 1)
  }

  lemma CreateWrites(env: Env, a: Str)
    requires ReadsOps(env) && |a| == 64
    ensures TxEffect(env, EMPTY, CreateTx(env, a), 1) ==
            Wrote(UndoId(1, 0, a), Undo(env.chain, 1, ObjectId(a), None), Some(Created(env, a)), None)
  {
    hide Envelope.Parse, Envelope.Serialized, PaysFee, UndoId, Seal, ObjectId;
    OutputParses(env, CREATE_JSON);
    OutputPays(env, CreateTx(env, a), CREATE_JSON);
    assert IsCreate(env, Inscribed(CREATE_JSON));
  }

  /** The object after the call in transaction `b`. */
  function Called(env: Env, obj: Object, b: Str, a: Str): Object {
    obj.(seal := Seal(b, 0), updatedAt := 2, satoshis := env.minFee,
         state := env.touch(obj.state, TRANSFER, Seal(a, 0)))
  }

  lemma SpendWrites(env: Env, db: Db, b: Str, a: Str, obj: Object)
    requires ReadsOps(env) && |b| == 64
    requires Seal(a, 0) in db.seals && Get(db.objects, db.seals[Seal(a, 0)]) == Some(obj) &&
             obj.codeHash == WASM_DEFAULT
    ensures var e := TxEffect(env, db, SpendTx(env, b, a), 2);
            && e.Wrote? && e.undoId == UndoId(2, 0, b) && e.undo == Undo(env.chain, 2, obj.id, Some(obj))
            && e.obj == Some(Called(env, obj, b, a))
  {
    hide Envelope.Parse, Envelope.Serialized, PaysFee, UndoId, Seal, ObjectId;
    var tx := SpendTx(env, b, a);
    OutputParses(env, CALL_JSON);
    OutputPays(env, tx, CALL_JSON);
    assert CREATE != TRANSFER && DEPLOY != TRANSFER by { assert CREATE[0] != TRANSFER[0] && DEPLOY[0] != TRANSFER[0]; }
    assert !IsCreate(env, Inscribed(CALL_JSON)) by {
      assert APPLICATION_JSON != APPLICATION_WASM by { assert APPLICATION_JSON[12] != APPLICATION_WASM[12]; }
    }
    assert Target(db.objects, db.seals, tx.vin) == Some(obj);
    assert Sender(tx) == Seal(a, 0);
  }

  // ----- the tables along the way

  /** The tables hold the one object `obj` under its seal, and these undo records. */
  ghost predicate Only(db: Db, obj: Object, undo: map<nat, Undo>) {
    db.objects == map[obj.id := obj] && db.seals == map[obj.seal := obj.id] && db.undo == undo
  }

  lemma ApplyFirst(e: Effect)
    requires e.Wrote? && e.obj.Some?
    ensures Only(Apply(EMPTY, e), e.obj.value, map[e.undoId := e.undo])
  {
  }

  lemma ApplyNext(db: Db, e: Effect, obj: Object, undo: map<nat, Undo>)
    requires Only(db, obj, undo) && e.Wrote? && e.obj.Some? && e.obj.value.id == obj.id
    ensures Only(Apply(db, e), e.obj.value, undo[e.undoId := e.undo])
  {
    hide SaveObject;
    var logged := db.(undo := undo[e.undoId := e.undo]);
    SaveOnly(logged, obj, e.obj.value);
  }

  lemma SaveOnly(db: Db, obj: Object, next: Object)
    requires Only(db, obj, db.undo) && next.id == obj.id
    ensures Only(SaveObject(db, next), next, db.undo)
  {
    var db' := SaveObject(db, next);
    assert db'.objects == map[next.id := next];
    assert db'.seals == map[next.seal := next.id];
  }

  /** The undo table after the first block. */
  ghost function Birth(env: Env, a: Str): map<nat, Undo>
    requires |a| == 64
  {
    map[UndoId(1, 0, a) := Undo(env.chain, 1, ObjectId(a), None)]
  }

  /** The undo table after both blocks. */
  ghost function Records(env: Env, a: Str, b: Str, c: Str): map<nat, Undo>
    requires |a| == 64
  {
    var first := Created(env, a);
    Birth(env, a)
      [UndoId(2, 0, b) := Undo(env.chain, 2, first.id, Some(first))]
      [UndoId(2, 0, c) := Undo(env.chain, 2, first.id, Some(Called(env, first, b, a)))]
  }

  /** Transaction ids of full length, and undo ids, that do not clash. */
  predicate Apart(a: Str, b: Str, c: Str) {
    && |a| == 64 && |b| == 64 && |c| == 64 && a != b && b != c && a != c
    && UndoId(1, 0, a) != UndoId(2, 0, b) && UndoId(2, 0, b) != UndoId(2, 0, c) && UndoId(1, 0, a) != UndoId(2, 0, c)
  }

  lemma FirstBlock(env: Env, a: Str, b: Str, c: Str)
    requires ReadsOps(env) && Apart(a, b, c)
    ensures FreshChain(env, 1, Blocks(env, a, b, c), 1)
    ensures Only(Scan(env, 1, Blocks(env, a, b, c), 1), Created(env, a), Birth(env, a))
    ensures Seen(1, Blocks(env, a, b, c), 1) == {a}
  {
    hide TxEffect, UndoId, RootOf, Apply, Output;
    var (l1, tx) := (Blocks(env, a, b, c), CreateTx(env, a));
    CreateWrites(env, a);
    ApplyFirst(TxEffect(env, EMPTY, tx, 1));
    assert Scan(env, 1, l1, 0) == EMPTY && Seen(1, l1, 0) == {};
    OneTx(env, EMPTY, {}, tx, 1);
    assert TxIds([tx]) == {a} by { assert [tx][0].txid == a; }
  }

  lemma OneTx(env: Env, db: Db, seen: set<Str>, tx: Tx, h: nat)
    requires |tx.txid| == 64
    ensures ScanTxs(env, db, [tx], h) == Step(env, db, tx, h)
    ensures FreshTxs(env, db, seen, [tx], h) <==> FreshTx(env, db, seen, tx, h)
  {
    hide TxEffect, Apply;
    assert [tx][..0] == [];
    assert ScanTxs(env, db, [tx][..0], h) == db && seen + TxIds([]) == seen;
  }

  lemma TwoTxs(env: Env, db: Db, seen: set<Str>, x: Tx, y: Tx, h: nat)
    requires |x.txid| == 64 && |y.txid| == 64
    ensures ScanTxs(env, db, [x, y], h) == Step(env, Step(env, db, x, h), y, h)
    ensures FreshTxs(env, db, seen, [x, y], h) <==>
            FreshTx(env, db, seen, x, h) && FreshTx(env, Step(env, db, x, h), seen + {x.txid}, y, h)
  {
    hide TxEffect, Apply;
    assert [x, y][..1] == [x];
    OneTx(env, db, seen, x, h);
    assert TxIds([x]) == {x.txid} by { assert [x][0].txid == x.txid; }
  }

  lemma SecondBlock(env: Env, a: Str, b: Str, c: Str)
    requires ReadsOps(env) && Apart(a, b, c)
    ensures FreshChain(env, 1, Blocks(env, a, b, c), 2)
    ensures Scan(env, 1, Blocks(env, a, b, c), 2).undo == Records(env, a, b, c)
  {
    hide TxEffect, UndoId, RootOf, Apply, Output, Seal, ObjectId;
    var (l1, x, y) := (Blocks(env, a, b, c), SpendTx(env, b, a), SpendTx(env, c, b));
    FirstBlock(env, a, b, c);
    var (db, first) := (Scan(env, 1, l1, 1), Created(env, a));
    var second := Called(env, first, b, a);
    SpendWrites(env, db, b, a, first);
    var ex := TxEffect(env, db, x, 2);
    ApplyNext(db, ex, first, db.undo);
    var mid := Step(env, db, x, 2);
    SpendWrites(env, mid, c, b, second);
    ApplyNext(mid, TxEffect(env, mid, y, 2), second, mid.undo);
    TwoTxs(env, db, {a}, x, y, 2);
  }

  // ----- what a rollback past the second block does

  lemma RecordsDated(env: Env, a: Str, b: Str, c: Str)
    requires Apart(a, b, c)
    ensures FinalsDated(Records(env, a, b, c), env.chain, 1) <==> UndoId(2, 0, c) < UndoId(2, 0, b)
  {
    hide UndoId, Seal, ObjectId;
    var (undo, id) := (Records(env, a, b, c), Created(env, a).id);
    var (ub, uc) := (UndoId(2, 0, b), UndoId(2, 0, c));
    assert Above(undo, env.chain, 1) == {ub, uc};
    if ub < uc {
      assert Final(undo, env.chain, 1, id, uc);
    } else {
      forall i, j | Final(undo, env.chain, 1, i, j) ensures undo[j].prev.value.updatedAt <= 1 {
        assert !Before(undo, ub, uc);
      }
    }
  }

  /** On this chain a rollback past the second block is right exactly when the second call has the smaller undo id. */
  lemma TwoCallsIff(env: Env, a: Str, b: Str, c: Str)
    requires ReadsOps(env) && Apart(a, b, c)
    ensures var l1 := Blocks(env, a, b, c);
            && FreshChain(env, 1, l1, 2)
            && (RolledBack(Scan(env, 1, l1, 2), env.chain, 1, Scan(env, 1, l1, 1)) <==>
                UndoId(2, 0, c) < UndoId(2, 0, b))
  {
    hide UndoId, RolledBack, Scan, FreshChain, WellFormedChain, Blocks, FinalsDated;
    var l1 := Blocks(env, a, b, c);
    FirstBlock(env, a, b, c);
    SecondBlock(env, a, b, c);
    RecordsDated(env, a, b, c);
    var db' := RollbackExists(Scan(env, 1, l1, 2), env.chain, 1);
    RollbackExactIff(env, 1, l1, 1, 2, db');
    if RolledBack(Scan(env, 1, l1, 2), env.chain, 1, Scan(env, 1, l1, 1)) {
      RollbackDeterministic(Scan(env, 1, l1, 2), env.chain, 1, db', Scan(env, 1, l1, 1));
    }
  }

  // ----- one such chain

  /** Sixty-four hex digits of which the eighth is `d` and the others are zero. */
  function TxId(d: nat): (txid: Str)
    requires d < 10
    ensures |txid| == 64
  {
    ZeroDigits(7) + [48 + d] + ZeroDigits(56)
  }

  function ZeroDigits(n: nat): (s: Str)
    ensures |s| == n
  {
    if n == 0 then [] else ZeroDigits(n - 1) + [48]
  }

  lemma {:induction false} ZeroDigitsRead(n: nat)
    ensures HexNumber(ZeroDigits(n)) == Some(0)
  {
    if n > 0 {
      ZeroDigitsRead(n - 1);
      assert ZeroDigits(n)[..n - 1] == ZeroDigits(n - 1);
    }
  }

  lemma TxIdReads(d: nat)
    requires d < 10
    ensures |TxId(d)| == 64 && TxId(d)[7] == 48 + d && HexNumber(TxId(d)[..8]) == Some(d)
  {
    hide ZeroDigits;
    ZeroDigitsRead(7);
    var s := TxId(d)[..8];
    assert s == ZeroDigits(7) + [48 + d] && s[..7] == ZeroDigits(7);
  }

  lemma UndoIds()
    ensures UndoId(1, 0, TxId(1)) == 0x1_0000_0001
    ensures UndoId(2, 0, TxId(2)) == 0x2_0000_0002
    ensures UndoId(2, 0, TxId(3)) == 0x2_0000_0003
  {
    hide TxId, HexNumber, UndoWord;
    TxIdReads(1);
    TxIdReads(2);
    TxIdReads(3);
    UndoWords();
  }

  lemma UndoWords()
    ensures UndoWord(1, 0, 1) == 0x1_0000_0001 && UndoWord(2, 0, 2) == 0x2_0000_0002 &&
            UndoWord(2, 0, 3) == 0x2_0000_0003
  {
    var word := 0x1_0000_0000_0000_0000;
    assert 0 % word == 0 && 1 % word == 1 && 2 % word == 2 && 3 % word == 3;
    var x: bv64, y: bv64, z: bv64 := ((1 << 32) | 0) ^ 1, ((2 << 32) | 0) ^ 2, ((2 << 32) | 0) ^ 3;
    assert x == 0x1_0000_0001 && y == 0x2_0000_0002 && z == 0x2_0000_0003;
    assert x as nat == 0x1_0000_0001 && y as nat == 0x2_0000_0002 && z as nat == 0x2_0000_0003;
  }

  /** So the code can be given a chain that it does not roll back to where it was. */
  lemma RollbackCanMiss(env: Env)
    requires ReadsOps(env)
    ensures var l1 := Blocks(env, TxId(1), TxId(2), TxId(3));
            && FreshChain(env, 1, l1, 2)
            && !RolledBack(Scan(env, 1, l1, 2), env.chain, 1, Scan(env, 1, l1, 1))
  {
    hide *;
    UndoIds();
    IdsApart();
    TwoCallsIff(env, TxId(1), TxId(2), TxId(3));
  }

  lemma IdsApart()
    ensures Apart(TxId(1), TxId(2), TxId(3))
  {
    hide UndoId, TxId;
    UndoIds();
    TxIdReads(1);
    TxIdReads(2);
    TxIdReads(3);
  }
}
