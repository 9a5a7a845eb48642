/**
 What a transaction does, told from the transaction: which output acts, which input names the object, and what
 the tables hold afterwards. Every transaction falls under one of these cases.
 */
module Effects {
  import opened Bytes
  import opened Ledger
  import opened Scanner
  import Envelope

  /** Output `k` carries this envelope. */
  predicate Carries(tx: Tx, k: nat, ins: Envelope.Inscription) {
    k < |tx.vout| && tx.vout[k].code.Some? && Envelope.Parse(tx.vout[k].code.value) == Some(ins)
  }

  /** Some output pays the minimum fee, to the collector if there is one; no minimum needs no output. */
  predicate FeePaid(env: Env, tx: Tx) {
    env.minFee == 0 ||
    exists o :: o in tx.vout && o.value >= env.minFee && (env.collector.Some? ==> o.script == env.collector.value)
  }

  /** The metadata of an envelope; only JSON envelopes have any. */
  predicate Says(env: Env, ins: Envelope.Inscription, m: Meta) {
    m == if ins.contentType == APPLICATION_JSON then env.metaOf(ins.payload) else NO_META
  }

  /** Bytecode, and JSON that says create or deploy, make an object; everything else is a call. */
  predicate Makes(ins: Envelope.Inscription, m: Meta) {
    ins.contentType == APPLICATION_WASM || m.op == Some(CREATE) || m.op == Some(DEPLOY)
  }

  /** Some object sits under the seal that input `i` spends. */
  predicate Spends(objects: map<Str, Object>, tx: Tx, i: nat, id: Str)
    requires i < |tx.vin|
  {
    id in objects && objects[id].seal == Seal(tx.vin[i].txid, tx.vin[i].index)
  }

  /** Input `i` is the first that spends the seal of an object, and that object is `id`. */
  ghost predicate FirstSpent(objects: map<Str, Object>, tx: Tx, i: nat, id: Str) {
    i < |tx.vin| && Spends(objects, tx, i, id) && forall j, other | 0 <= j < i :: !Spends(objects, tx, j, other)
  }

  ghost predicate SpendsNothing(objects: map<Str, Object>, tx: Tx) {
    forall j, id | 0 <= j < |tx.vin| :: !Spends(objects, tx, j, id)
  }

  /** Output `k` carries no envelope, or a call while no input spends an object's seal. */
  ghost predicate Inert(env: Env, objects: map<Str, Object>, tx: Tx, k: nat) {
    k < |tx.vout| ==>
      forall ins, m | Carries(tx, k, ins) && Says(env, ins, m) :: !Makes(ins, m) && SpendsNothing(objects, tx)
  }

  // ----- the object an input names

  lemma {:induction false} TargetIsFirst(objects: map<Str, Object>, seals: map<Str, Str>, tx: Tx, vin: seq<Outpoint>,
                                         i: nat)
    requires Coherent(objects, seals) && i <= |tx.vin| && vin == tx.vin[i..]
    requires forall j, other | 0 <= j < i :: !Spends(objects, tx, j, other)
    ensures Target(objects, seals, vin).None? ==> SpendsNothing(objects, tx)
    ensures Target(objects, seals, vin).Some? ==>
              exists k :: FirstSpent(objects, tx, k, Target(objects, seals, vin).value.id) &&
                          objects[Target(objects, seals, vin).value.id] == Target(objects, seals, vin).value
    decreases |vin|
  {
    hide Seal;
    if vin != [] {
      var s := Seal(vin[0].txid, vin[0].index);
      assert vin[0] == tx.vin[i];
      if s in seals && seals[s] in objects {
        assert Spends(objects, tx, i, seals[s]);
        assert FirstSpent(objects, tx, i, seals[s]);
      } else {
        forall other ensures !Spends(objects, tx, i, other) {
        }
        assert vin[1..] == tx.vin[i + 1..];
        TargetIsFirst(objects, seals, tx, vin[1..], i + 1);
      }
    }
  }

  /** The object found is that of the first spending input, and none is found exactly when no input spends one. */
  lemma TargetDecided(objects: map<Str, Object>, seals: map<Str, Str>, tx: Tx)
    requires Coherent(objects, seals)
    ensures Target(objects, seals, tx.vin).None? <==> SpendsNothing(objects, tx)
    ensures forall i, id | FirstSpent(objects, tx, i, id) :: Target(objects, seals, tx.vin) == Some(objects[id])
  {
    hide Seal, Coherent;
    assert tx.vin[0..] == tx.vin;
    TargetIsFirst(objects, seals, tx, tx.vin, 0);
    forall i, id | FirstSpent(objects, tx, i, id) ensures Target(objects, seals, tx.vin) == Some(objects[id]) {
      assert !SpendsNothing(objects, tx);
      var t := Target(objects, seals, tx.vin).value;
      var k :| FirstSpent(objects, tx, k, t.id) && objects[t.id] == t;
      assert k == i;
      OneUnderSeal(objects, seals, id, t.id);
    }
  }

  lemma OneUnderSeal(objects: map<Str, Object>, seals: map<Str, Str>, a: Str, b: Str)
    requires Coherent(objects, seals) && a in objects && b in objects && objects[a].seal == objects[b].seal
    ensures a == b
  {
  }

  // ----- outputs that do nothing

  lemma FeeDecided(env: Env, tx: Tx)
    ensures PaysFee(env, tx) <==> FeePaid(env, tx)
  {
    if FeePaid(env, tx) && env.minFee != 0 {
      var o :| o in tx.vout && o.value >= env.minFee && (env.collector.Some? ==> o.script == env.collector.value);
      var i :| 0 <= i < |tx.vout| && tx.vout[i] == o;
    }
  }

  lemma {:induction false} UnpaidNothing(env: Env, objects: map<Str, Object>, seals: map<Str, Str>, tx: Tx, h: nat,
                                         k: nat)
    requires |tx.txid| >= 16 && !FeePaid(env, tx)
    ensures EffectFrom(env, objects, seals, tx, h, k) == Nothing
    decreases |tx.vout| - k
  {
    hide UndoId, Seal, PaysFee, FeePaid, IsCreate, Envelope.Parse, Target, ObjectId;
    FeeDecided(env, tx);
    if k < |tx.vout| { UnpaidNothing(env, objects, seals, tx, h, k + 1); }
  }

  /** A transaction that does not pay the fee changes nothing. */
  lemma UnpaidIgnored(env: Env, db: Db, tx: Tx, h: nat)
    requires |tx.txid| >= 16 && !FeePaid(env, tx)
    ensures Step(env, db, tx, h) == db
  {
    hide EffectFrom, FeePaid;
    UnpaidNothing(env, db.objects, db.seals, tx, h, 0);
  }

  lemma SkipOne(env: Env, objects: map<Str, Object>, seals: map<Str, Str>, tx: Tx, h: nat, k: nat)
    requires |tx.txid| >= 16 && Coherent(objects, seals) && FeePaid(env, tx) && k < |tx.vout| &&
             Inert(env, objects, tx, k)
    ensures EffectFrom(env, objects, seals, tx, h, k) == EffectFrom(env, objects, seals, tx, h, k + 1)
  {
    hide UndoId, Seal, PaysFee, FeePaid, Envelope.Parse, Target, ObjectId, Coherent, SpendsNothing;
    FeeDecided(env, tx);
    TargetDecided(objects, seals, tx);
    if tx.vout[k].code.Some? && Envelope.Parse(tx.vout[k].code.value).Some? {
      var ins := Envelope.Parse(tx.vout[k].code.value).value;
      assert Carries(tx, k, ins) && Says(env, ins, MetaFor(env, ins));
    }
  }

  lemma {:induction false} SkipInert(env: Env, objects: map<Str, Object>, seals: map<Str, Str>, tx: Tx, h: nat, k: nat)
    requires |tx.txid| >= 16 && Coherent(objects, seals) && FeePaid(env, tx) && k <= |tx.vout|
    requires forall j: nat | j < k :: Inert(env, objects, tx, j)
    ensures EffectFrom(env, objects, seals, tx, h, 0) == EffectFrom(env, objects, seals, tx, h, k)
    decreases k
  {
    hide EffectFrom, FeePaid, Inert, Coherent;
    if k > 0 {
      SkipInert(env, objects, seals, tx, h, k - 1);
      SkipOne(env, objects, seals, tx, h, k - 1);
    }
  }

  /** A transaction with nothing but inert outputs changes nothing. */
  lemma InertIgnored(env: Env, db: Db, tx: Tx, h: nat)
    requires |tx.txid| >= 16 && Coherent(db.objects, db.seals)
    requires forall k: nat | k < |tx.vout| :: Inert(env, db.objects, tx, k)
    ensures Step(env, db, tx, h) == db
  {
    hide FeePaid, Inert, Coherent;
    if FeePaid(env, tx) {
      SkipInert(env, db.objects, db.seals, tx, h, |tx.vout|);
    } else {
      UnpaidIgnored(env, db, tx, h);
    }
  }

  // ----- calls

  lemma CallFound(env: Env, db: Db, tx: Tx, h: nat, k: nat, ins: Envelope.Inscription, m: Meta, i: nat, id: Str)
    requires |tx.txid| >= 16 && Coherent(db.objects, db.seals) && FeePaid(env, tx)
    requires forall j: nat | j < k :: Inert(env, db.objects, tx, j)
    requires Carries(tx, k, ins) && Says(env, ins, m) && !Makes(ins, m) && FirstSpent(db.objects, tx, i, id)
    ensures TxEffect(env, db, tx, h) == CallEffect(env, tx, h, k, ins, db.objects[id])
    ensures MetaFor(env, ins) == m && db.objects[id].id == id
  {
    hide UndoId, Seal, PaysFee, FeePaid, Envelope.Parse, Target, ObjectId, Inert, CallEffect, FirstSpent;
    FeeDecided(env, tx);
    TargetDecided(db.objects, db.seals, tx);
    SkipInert(env, db.objects, db.seals, tx, h, k);
    SpentIsStored(db.objects, tx, i, id);
  }

  lemma SpentIsStored(objects: map<Str, Object>, tx: Tx, i: nat, id: Str)
    requires FirstSpent(objects, tx, i, id)
    ensures id in objects && tx.vin != []
  {
  }

  /**
   A fee-paying call through its first acting output. The object is the one whose seal the first spending input
   spends. Its record as it stood is logged. If execution fails that is all; if it succeeds the object moves to the
   output's seal and value with the state that execution returned, to the recipient if one is named, and the
   transition is recorded.
   */
  lemma CallMoves(env: Env, db: Db, tx: Tx, h: nat, k: nat, ins: Envelope.Inscription, m: Meta, i: nat, id: Str)
    requires |tx.txid| >= 16 && Coherent(db.objects, db.seals) && FeePaid(env, tx)
    requires forall j: nat | j < k :: Inert(env, db.objects, tx, j)
    requires Carries(tx, k, ins) && Says(env, ins, m) && !Makes(ins, m) && FirstSpent(db.objects, tx, i, id)
    ensures var (was, db', value, seal) := (db.objects[id], Step(env, db, tx, h), tx.vout[k].value, Seal(tx.txid, k));
            var sender := Seal(tx.vin[0].txid, tx.vin[0].index);
            var callee := if m.callee.Some? then m.callee.value else TRANSFER;
            var args := if m.args.Some? then m.args.value else EMPTY_JSON;
            var owner := if m.recipient.Some? then m.recipient.value else was.owner;
            var result: Option<(Bytes, nat)> :=
              if was.codeHash == WASM_DEFAULT then Some((env.touch(was.state, callee, sender), 21_500))
              else env.run(was, callee, args, sender, value);
            && db'.undo == db.undo[UndoId(h, k, tx.txid) := Undo(env.chain, h, id, Some(was))]
            && db'.blocks == db.blocks && db'.lastBlock == db.lastBlock
            && (result.None? ==>
                  db'.objects == db.objects && db'.seals == db.seals && db'.transitions == db.transitions)
            && (result.Some? ==>
                  var (state, gas) := result.value;
                  && db'.objects ==
                     db.objects[id := Object(id, was.codeHash, seal, value, owner, state, was.createdAt, h)]
                  && db'.seals == (db.seals - {was.seal})[seal := id]
                  && db'.transitions ==
                     db.transitions[tx.txid := Transition(tx.txid, id, was.seal, seal, sender, callee, args, state,
                                                          value, h, gas)])
  {
    hide UndoId, Seal, FeePaid, TxEffect, FirstSpent, Inert, Carries, Coherent;
    CallFound(env, db, tx, h, k, ins, m, i, id);
    SpentIsStored(db.objects, tx, i, id);
    var e := TxEffect(env, db, tx, h);
    if e.obj.Some? { SaveMoves(db.(undo := db.undo[e.undoId := e.undo]), e.obj.value); }
  }

  lemma SaveMoves(db: Db, obj: Object)
    ensures var db' := SaveObject(db, obj);
            && db'.objects == db.objects[obj.id := obj]
            && db'.seals ==
               (if obj.id in db.objects then db.seals - {db.objects[obj.id].seal} else db.seals)[obj.seal := obj.id]
  {
  }

  // ----- creations

  /** A fee-paying creation through its first acting output: a new object under the transaction's own seal. */
  lemma CreateMakes(env: Env, db: Db, tx: Tx, h: nat, k: nat, ins: Envelope.Inscription, m: Meta)
    requires |tx.txid| >= 16 && Coherent(db.objects, db.seals) && FeePaid(env, tx)
    requires forall j: nat | j < k :: Inert(env, db.objects, tx, j)
    requires Carries(tx, k, ins) && Says(env, ins, m) && Makes(ins, m)
    ensures var (id, db', seal) := (OBJ_PREFIX + tx.txid[..16], Step(env, db, tx, h), Seal(tx.txid, k));
            var sender := if tx.vin == [] then COINBASE else Seal(tx.vin[0].txid, tx.vin[0].index);
            var codeHash := if m.codeHash.Some? then m.codeHash.value
                            else if ins.contentType == APPLICATION_WASM then env.codeHashOf(ins.payload)
                            else WASM_DEFAULT;
            var state := if m.state.Some? then m.state.value else env.freshState(sender);
            && db'.undo == db.undo[UndoId(h, k, tx.txid) := Undo(env.chain, h, id, None)]
            && db'.objects == db.objects[id := Object(id, codeHash, seal, tx.vout[k].value, sender, state, h, h)]
            && db'.seals == (if id in db.objects then db.seals - {db.objects[id].seal} else db.seals)[seal := id]
            && db'.transitions == db.transitions && db'.blocks == db.blocks && db'.lastBlock == db.lastBlock
  {
    hide UndoId, Seal, FeePaid, PaysFee, Inert, Coherent, Envelope.Parse, CallEffect, Target;
    FeeDecided(env, tx);
    SkipInert(env, db.objects, db.seals, tx, h, k);
    var e := TxEffect(env, db, tx, h);
    assert MetaFor(env, ins) == m && IsCreate(env, ins);
    assert e == CreateEffect(env, tx, h, k, ins);
    SaveMoves(db.(undo := db.undo[e.undoId := e.undo]), e.obj.value);
  }

  // ----- nothing else

  /** Output `k` is the first that acts, as a creation or as a call on the object that an input spends. */
  ghost predicate Acts(env: Env, objects: map<Str, Object>, tx: Tx, k: nat) {
    && (forall j: nat | j < k :: Inert(env, objects, tx, j))
    && exists ins, m :: Carries(tx, k, ins) && Says(env, ins, m) &&
                        (Makes(ins, m) || exists i, id :: FirstSpent(objects, tx, i, id))
  }

  /** Every fee-paying transaction is inert throughout or has a first acting output. */
  lemma InertOrActs(env: Env, db: Db, tx: Tx)
    requires Coherent(db.objects, db.seals)
    ensures (forall k: nat | k < |tx.vout| :: Inert(env, db.objects, tx, k)) || exists k :: Acts(env, db.objects, tx, k)
  {
    hide Coherent, Carries;
    if k: nat :| k < |tx.vout| && !Inert(env, db.objects, tx, k) {
      FirstActs(env, db, tx, k);
    }
  }

  lemma {:induction false} FirstActs(env: Env, db: Db, tx: Tx, k: nat)
    requires Coherent(db.objects, db.seals) && k < |tx.vout| && !Inert(env, db.objects, tx, k)
    ensures exists j :: Acts(env, db.objects, tx, j)
    decreases k
  {
    hide Coherent, Carries, Makes, FirstSpent;
    if j: nat :| j < k && !Inert(env, db.objects, tx, j) {
      FirstActs(env, db, tx, j);
    } else {
      var ins, m :| Carries(tx, k, ins) && Says(env, ins, m) && !(!Makes(ins, m) && SpendsNothing(db.objects, tx));
      if !SpendsNothing(db.objects, tx) { SomeFirstSpent(db.objects, db.seals, tx); }
      assert Acts(env, db.objects, tx, k);
    }
  }

  lemma SomeFirstSpent(objects: map<Str, Object>, seals: map<Str, Str>, tx: Tx)
    requires Coherent(objects, seals) && !SpendsNothing(objects, tx)
    ensures exists i, id :: FirstSpent(objects, tx, i, id)
  {
    assert tx.vin[0..] == tx.vin;
    TargetIsFirst(objects, seals, tx, tx.vin, 0);
  }

  // ----- seals name outputs

  lemma {:induction false} DecimalInjective(m: nat, n: nat)
    requires Decimal(m) == Decimal(n)
    ensures m == n
    decreases m
  {
    DecimalNonempty(m);
    DecimalNonempty(n);
    var t := Decimal(m);
    assert t[|t| - 1] == 48 + m % 10 == 48 + n % 10;
    if m < 10 {
      assert |t| == 1;
      if n >= 10 { DecimalNonempty(n / 10); }
    } else {
      DecimalNonempty(m / 10);
      assert t[..|t| - 1] == Decimal(m / 10);
      if n >= 10 {
        assert t[..|t| - 1] == Decimal(n / 10);
        DecimalInjective(m / 10, n / 10);
      }
    }
  }

  lemma DecimalNonempty(n: nat)
    ensures Decimal(n) != []
  {
  }

  /** A seal names one output of one transaction. */
  lemma SealInjective(a: Str, i: nat, b: Str, j: nat)
    requires |a| == |b| && Seal(a, i) == Seal(b, j)
    ensures a == b && i == j
  {
    hide Decimal;
    assert Seal(a, i) == a + ([58] + Decimal(i)) && Seal(b, j) == b + ([58] + Decimal(j));
    FixedInjective(a, [58] + Decimal(i), b, [58] + Decimal(j));
    FixedInjective([58], Decimal(i), [58], Decimal(j));
    DecimalInjective(i, j);
  }

  // ----- undo ids

  lemma MixInjective(h: bv64, v: bv64, g: bv64, w: bv64, prefix: bv64)
    requires h < 0x1_0000_0000 && v < 0x1_0000_0000 && g < 0x1_0000_0000 && w < 0x1_0000_0000
    ensures Mix(h, v, prefix) == Mix(g, w, prefix) ==> h == g && v == w
  {
  }

  function Word(n: nat): bv64
    requires n < TWO_64
  {
    n as bv64
  }

  lemma WordBack(a: bv64)
    ensures a as nat < TWO_64 && Word(a as nat) == a
  {
  }

  lemma SameWord(a: bv64, b: bv64)
    requires a as nat == b as nat
    ensures a == b
  {
    hide Word;
    WordBack(a);
    WordBack(b);
  }

  lemma NarrowWord(n: nat)
    requires n < TWO_32
    ensures (n % TWO_64) as bv64 < 0x1_0000_0000 && (n % TWO_64) as bv64 as nat == n
  {
    assert n % TWO_64 == n;
  }

  /** Under one transaction prefix an undo id names the height and the output. */
  lemma UndoWordInjective(h: nat, v: nat, g: nat, w: nat, prefix: nat)
    requires h < TWO_32 && v < TWO_32 && g < TWO_32 && w < TWO_32 && UndoWord(h, v, prefix) == UndoWord(g, w, prefix)
    ensures h == g && v == w
  {
    hide Mix;
    NarrowWord(h);
    NarrowWord(v);
    NarrowWord(g);
    NarrowWord(w);
    var (x, y) := (Mix((h % TWO_64) as bv64, (v % TWO_64) as bv64, (prefix % TWO_64) as bv64),
                   Mix((g % TWO_64) as bv64, (w % TWO_64) as bv64, (prefix % TWO_64) as bv64));
    SameWord(x, y);
    MixInjective((h % TWO_64) as bv64, (v % TWO_64) as bv64, (g % TWO_64) as bv64, (w % TWO_64) as bv64,
                 (prefix % TWO_64) as bv64);
  }

  /** So the outputs of one transaction, and its outputs at different heights, never share an undo id. */
  lemma UndoIdInjective(txid: Str, h: nat, v: nat, g: nat, w: nat)
    requires h < TWO_32 && v < TWO_32 && g < TWO_32 && w < TWO_32 && UndoId(h, v, txid) == UndoId(g, w, txid)
    ensures h == g && v == w
  {
    hide UndoWord, HexNumber;
    var prefix := if |txid| < 8 then 0 else match HexNumber(txid[..8]) case Some(n) => n case None => 0;
    UndoWordInjective(h, v, g, w, prefix);
  }
}
