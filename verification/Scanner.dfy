/**
 Scanning: the effect of one transaction on the tables (`scanner/processor.rs`) and of a
 run of L1 blocks (the extend part of the sync loop in `main.rs`). Contract execution and
 JSON reading are arbitrary deterministic functions carried by `Env`.
 */
module Scanner {
  import opened Bytes
  import opened Ledger
  import Envelope

  /** The fields of an envelope's JSON metadata that the processor reads; `recipient` is `args.to`. */
  datatype Meta = Meta(op: Option<Str>, codeHash: Option<Str>, state: Option<Bytes>, callee: Option<Str>,
                       args: Option<Bytes>, recipient: Option<Str>)

  const NO_META: Meta := Meta(None, None, None, None, None, None)

  /** Node configuration, and the foreign code the processor calls: `run` executes a contract and may fail. */
  datatype Env = Env(
    H: Hash, chain: Str, minFee: nat, collector: Option<Str>,
    metaOf: Bytes -> Meta,
    codeHashOf: Bytes -> Str,
    freshState: Str -> Bytes,
    run: (Object, Str, Bytes, Str, nat) -> Option<(Bytes, nat)>,
    touch: (Bytes, Str, Str) -> Bytes)

  datatype Outpoint = Outpoint(txid: Str, index: nat)

  /** `code` is the decoded script, or `None` when its hex does not decode. */
  datatype TxOut = TxOut(value: nat, script: Str, code: Option<Bytes>)

  datatype Tx = Tx(txid: Str, vin: seq<Outpoint>, vout: seq<TxOut>)

  const APPLICATION_WASM: Bytes := [97, 112, 112, 108, 105, 99, 97, 116, 105, 111, 110, 47, 119, 97, 115, 109]
  const APPLICATION_JSON: Bytes := [97, 112, 112, 108, 105, 99, 97, 116, 105, 111, 110, 47, 106, 115, 111, 110]
  const CREATE: Bytes := [99, 114, 101, 97, 116, 101]
  const DEPLOY: Bytes := [100, 101, 112, 108, 111, 121]
  const TRANSFER: Bytes := [116, 114, 97, 110, 115, 102, 101, 114]
  const COINBASE: Bytes := [99, 111, 105, 110, 98, 97, 115, 101]
  const WASM_DEFAULT: Bytes := [119, 97, 115, 109, 95, 100, 101, 102, 97, 117, 108, 116]
  const OBJ_PREFIX: Bytes := [111, 98, 106, 95]
  const EMPTY_JSON: Bytes := [123, 125]

  function Decimal(n: nat): Str {
    if n < 10 then [48 + n] else Decimal(n / 10) + [48 + n % 10]
  }

  function Seal(txid: Str, index: nat): (s: Str)
    ensures |s| > |txid| && s[..|txid|] == txid
  {
    txid + [58] + Decimal(index)
  }

  /** `obj_` and the first sixteen characters of the transaction id. */
  function ObjectId(txid: Str): Str
    requires |txid| >= 16
  {
    OBJ_PREFIX + txid[..16]
  }

  function HexDigit(c: Byte): Option<nat> {
    if 48 <= c <= 57 then Some(c - 48)
    else if 97 <= c <= 102 then Some(c - 87)
    else if 65 <= c <= 70 then Some(c - 55)
    else None
  }

  /** `u64::from_str_radix(s, 16)`. */
  function HexNumber(s: Str): Option<nat> {
    if s == [] then Some(0)
    else
      match (HexNumber(s[..|s| - 1]), HexDigit(s[|s| - 1]))
      case (Some(n), Some(d)) => Some(16 * n + d)
      case _ => None
  }

  /** `((height << 32) | vout) ^ <first eight hex digits of the txid>` on 64-bit words. */
  function UndoId(height: nat, vout: nat, txid: Str): nat {
    UndoWord(height, vout, if |txid| < 8 then 0 else match HexNumber(txid[..8]) case Some(n) => n case None => 0)
  }

  function UndoWord(height: nat, vout: nat, prefix: nat): nat {
    Mix((height % TWO_64) as bv64, (vout % TWO_64) as bv64, (prefix % TWO_64) as bv64) as nat
  }

  function Mix(height: bv64, vout: bv64, prefix: bv64): bv64 {
    ((height << 32) | vout) ^ prefix
  }

  predicate PaysFee(env: Env, tx: Tx) {
    env.minFee == 0 ||
    exists i :: 0 <= i < |tx.vout| && tx.vout[i].value >= env.minFee &&
                (env.collector.None? || tx.vout[i].script == env.collector.value)
  }

  function MetaFor(env: Env, ins: Envelope.Inscription): Meta {
    if ins.contentType == APPLICATION_JSON then env.metaOf(ins.payload) else NO_META
  }

  predicate IsCreate(env: Env, ins: Envelope.Inscription) {
    ins.contentType == APPLICATION_WASM || MetaFor(env, ins).op == Some(CREATE) || MetaFor(env, ins).op == Some(DEPLOY)
  }

  function Or<T>(o: Option<T>, d: T): T {
    if o.Some? then o.value else d
  }

  function Sender(tx: Tx): Str {
    if tx.vin == [] then COINBASE else Seal(tx.vin[0].txid, tx.vin[0].index)
  }

  /** The object whose seal the first matching input spends. */
  function Target(objects: map<Str, Object>, seals: map<Str, Str>, vin: seq<Outpoint>): Option<Object> {
    if vin == [] then None
    else
      var s := Seal(vin[0].txid, vin[0].index);
      if s in seals && seals[s] in objects then Some(objects[seals[s]]) else Target(objects, seals, vin[1..])
  }

  /** What a transaction writes: an undo record always, an object and a transition when it succeeds. */
  datatype Effect = Nothing | Wrote(undoId: nat, undo: Undo, obj: Option<Object>, trans: Option<Transition>)

  function CreateEffect(env: Env, tx: Tx, h: nat, k: nat, ins: Envelope.Inscription): Effect
    requires k < |tx.vout| && |tx.txid| >= 16
  {
    var m, id, sender := MetaFor(env, ins), ObjectId(tx.txid), Sender(tx);
    var default := if ins.contentType == APPLICATION_WASM then env.codeHashOf(ins.payload) else WASM_DEFAULT;
    var codeHash := Or(m.codeHash, default);
    Wrote(UndoId(h, k, tx.txid), Undo(env.chain, h, id, None),
          Some(Object(id, codeHash, Seal(tx.txid, k), tx.vout[k].value, sender, Or(m.state, env.freshState(sender)),
                      h, h)),
          None)
  }

  function CallEffect(env: Env, tx: Tx, h: nat, k: nat, ins: Envelope.Inscription, target: Object): Effect
    requires k < |tx.vout|
  {
    var m, sender, value := MetaFor(env, ins), Sender(tx), tx.vout[k].value;
    var callee, args := Or(m.callee, TRANSFER), Or(m.args, EMPTY_JSON);
    var result: Option<(Bytes, nat)> :=
      if target.codeHash == WASM_DEFAULT then Some((env.touch(target.state, callee, sender), 21_500))
      else env.run(target, callee, args, sender, value);
    var undo := Undo(env.chain, h, target.id, Some(target));
    match result
    case None => Wrote(UndoId(h, k, tx.txid), undo, None, None)
    case Some((state, gas)) =>
      var seal := Seal(tx.txid, k);
      Wrote(UndoId(h, k, tx.txid), undo,
            Some(target.(seal := seal, updatedAt := h, satoshis := value, owner := Or(m.recipient, target.owner),
                         state := state)),
            Some(Transition(tx.txid, target.id, target.seal, seal, sender, callee, args, state, value, h, gas)))
  }

  /** The effect of a transaction whose outputs before `k` carry nothing to act on. */
  function EffectFrom(env: Env, objects: map<Str, Object>, seals: map<Str, Str>, tx: Tx, h: nat, k: nat): Effect
    requires |tx.txid| >= 16
    decreases |tx.vout| - k
  {
    if k >= |tx.vout| then Nothing
    else
      match tx.vout[k].code
      case None => EffectFrom(env, objects, seals, tx, h, k + 1)
      case Some(code) =>
        match Envelope.Parse(code)
        case None => EffectFrom(env, objects, seals, tx, h, k + 1)
        case Some(ins) =>
          if !PaysFee(env, tx) then Nothing
          else if IsCreate(env, ins) then CreateEffect(env, tx, h, k, ins)
          else
            match Target(objects, seals, tx.vin)
            case None => EffectFrom(env, objects, seals, tx, h, k + 1)
            case Some(target) => CallEffect(env, tx, h, k, ins, target)
  }

  function TxEffect(env: Env, db: Db, tx: Tx, h: nat): Effect
    requires |tx.txid| >= 16
  {
    EffectFrom(env, db.objects, db.seals, tx, h, 0)
  }

  function Apply(db: Db, e: Effect): Db {
    if e.Nothing? then db
    else
      var logged := db.(undo := db.undo[e.undoId := e.undo]);
      var saved := if e.obj.Some? then SaveObject(logged, e.obj.value) else logged;
      if e.trans.Some? then saved.(transitions := saved.transitions[e.trans.value.txid := e.trans.value]) else saved
  }

  function Step(env: Env, db: Db, tx: Tx, h: nat): Db
    requires |tx.txid| >= 16
  {
    Apply(db, TxEffect(env, db, tx, h))
  }

  // ----- blocks

  datatype L1Block = L1Block(hash: Str, txs: seq<Tx>)

  predicate WellFormed(txs: seq<Tx>) {
    forall i :: 0 <= i < |txs| ==> |txs[i].txid| == 64
  }

  function ScanTxs(env: Env, db: Db, txs: seq<Tx>, h: nat): Db
    requires WellFormed(txs)
  {
    if txs == [] then db else Step(env, ScanTxs(env, db, txs[..|txs| - 1], h), txs[|txs| - 1], h)
  }

  ghost function CloseBlock(env: Env, db: Db, hash: Str, h: nat): Db {
    db.(blocks := db.blocks[(env.chain, h) := Block(hash, RootOf(env.H, db.objects))],
        lastBlock := db.lastBlock[env.chain := h])
  }

  ghost function ScanBlock(env: Env, db: Db, block: L1Block, h: nat): Db
    requires WellFormed(block.txs)
  {
    CloseBlock(env, ScanTxs(env, db, block.txs, h), block.hash, h)
  }

  /** An L1 chain by height. */
  type Chain = seq<L1Block>

  ghost predicate WellFormedChain(l1: Chain) {
    forall h :: 0 <= h < |l1| ==> WellFormed(l1[h].txs)
  }

  /** The tables after scanning heights `first` to `n` of a chain from nothing. */
  ghost function Scan(env: Env, first: nat, l1: Chain, n: nat): Db
    requires WellFormedChain(l1) && n < |l1|
  {
    if n < first || n == 0 then EMPTY else ScanBlock(env, Scan(env, first, l1, n - 1), l1[n], n)
  }

  // ----- the shape of an effect

  lemma {:induction false} TargetIsStored(objects: map<Str, Object>, seals: map<Str, Str>, vin: seq<Outpoint>)
    requires Coherent(objects, seals)
    ensures var t := Target(objects, seals, vin); t.Some? ==> Get(objects, t.value.id) == t
  {
    if vin != [] { TargetIsStored(objects, seals, vin[1..]); }
  }

  ghost predicate Shaped(env: Env, objects: map<Str, Object>, tx: Tx, h: nat, e: Effect)
    requires |tx.txid| >= 16
  {
    e.Wrote? ==>
      && e.undo.chain == env.chain && e.undo.height == h
      && (e.undo.prev.None? ==> e.undo.objectId == ObjectId(tx.txid) && e.obj.Some? && e.trans.None?)
      && (e.undo.prev.Some? ==> e.undo.prev == Get(objects, e.undo.objectId) && e.undo.prev.value.id == e.undo.objectId)
      && (e.undo.prev.Some? ==> (e.trans.Some? <==> e.obj.Some?))
      && (e.obj.Some? ==>
            && e.obj.value.id == e.undo.objectId && e.obj.value.updatedAt == h
            && |e.obj.value.seal| >= |tx.txid| && e.obj.value.seal[..|tx.txid|] == tx.txid)
      && (e.trans.Some? ==>
            && e.undo.prev.Some? && e.trans.value.txid == tx.txid && e.trans.value.height == h
            && e.trans.value.objectId == e.undo.objectId
            && e.trans.value.prevSeal == e.undo.prev.value.seal && e.trans.value.newSeal == e.obj.value.seal)
  }

  /** Every effect records the object as it stands, and any seal it hands out carries the transaction's id. */
  lemma {:induction false} EffectShaped(env: Env, objects: map<Str, Object>, seals: map<Str, Str>, tx: Tx, h: nat,
                                        k: nat)
    requires |tx.txid| >= 16 && Coherent(objects, seals)
    ensures Shaped(env, objects, tx, h, EffectFrom(env, objects, seals, tx, h, k))
    decreases |tx.vout| - k
  {
    hide UndoId, Seal, PaysFee, IsCreate, MetaFor, Coherent, Envelope.Parse, Target, ObjectId;
    if k < |tx.vout| {
      EffectShaped(env, objects, seals, tx, h, k + 1);
      TargetIsStored(objects, seals, tx.vin);
    }
  }
}
