/**
 What a state root says about the objects. Two tables with one root agree object by object in the bytes that are
 hashed, or a break of the hash is computed from the tables. The fields are hashed without lengths in front, so
 it is spelled out which objects have the same bytes.
 */
module Commitment {
  import opened Bytes
  import opened Smt
  import opened SmtBinding
  import opened Ledger

  // ----- which objects have the same bytes

  function Front(obj: Object): Bytes {
    obj.codeHash + obj.seal
  }

  function Back(obj: Object): Bytes {
    obj.owner + obj.state
  }

  lemma BytesSplit(obj: Object)
    ensures ObjectBytes(obj) == obj.id + (Front(obj) + (U64(obj.satoshis) + Back(obj)))
  {
  }

  lemma CutFront(x: Bytes, p: Bytes, y: Bytes, q: Bytes)
    requires |x| <= |y|
    ensures x + p == y + q <==> x == y[..|x|] && p == y[|x|..] + q
  {
    if x + p == y + q {
      assert (x + p)[..|x|] == x && (y + q)[..|x|] == y[..|x|];
      assert (x + p)[|x|..] == p && (y + q)[|x|..] == y[|x|..] + q;
    }
    if x == y[..|x|] && p == y[|x|..] + q {
      assert y == y[..|x|] + y[|x|..];
      assert x + p == x + (y[|x|..] + q) == (x + y[|x|..]) + q;
    }
  }

  lemma CutSame(x: Bytes, p: Bytes, y: Bytes, q: Bytes)
    requires |x| == |y|
    ensures x + p == y + q <==> x == y && p == q
  {
    CutFront(x, p, y, q);
    assert y[..|x|] == y && y[|x|..] + q == q;
  }

  /**
   Objects under one id have the same bytes exactly in these cases: if their code hashes and seals are equally long
   together, when those agree run together, the amounts agree, and the owners and states agree run together; and if
   one front is longer, when it starts with the other and its remainder is where the other's amount begins.
   */
  lemma SameBytesIff(a: Object, b: Object)
    requires a.id == b.id && a.satoshis < TWO_64 && b.satoshis < TWO_64
    ensures |Front(a)| == |Front(b)| ==>
              (ObjectBytes(a) == ObjectBytes(b) <==>
               Front(a) == Front(b) && a.satoshis == b.satoshis && Back(a) == Back(b))
    ensures |Front(a)| < |Front(b)| ==>
              (ObjectBytes(a) == ObjectBytes(b) <==>
               Front(a) == Front(b)[..|Front(a)|] &&
               U64(a.satoshis) + Back(a) == Front(b)[|Front(a)|..] + (U64(b.satoshis) + Back(b)))
  {
    hide U64, Front, Back;
    BytesSplit(a);
    BytesSplit(b);
    var (p, q) := (U64(a.satoshis) + Back(a), U64(b.satoshis) + Back(b));
    CutSame(a.id, Front(a) + p, b.id, Front(b) + q);
    U64Width(a.satoshis);
    U64Width(b.satoshis);
    if |Front(a)| == |Front(b)| {
      CutSame(Front(a), p, Front(b), q);
      CutSame(U64(a.satoshis), Back(a), U64(b.satoshis), Back(b));
      if U64(a.satoshis) == U64(b.satoshis) { U64Injective(a.satoshis, b.satoshis); }
    } else if |Front(a)| < |Front(b)| {
      CutFront(Front(a), p, Front(b), q);
    }
  }

  lemma U64Width(n: nat)
    ensures |U64(n)| == 8
  {
  }

  /** With fields of the same widths, as code hashes and seals have, equal bytes mean equal fields. */
  lemma SameWidths(a: Object, b: Object)
    requires a.id == b.id && a.satoshis < TWO_64 && b.satoshis < TWO_64
    requires |a.codeHash| == |b.codeHash| && |a.seal| == |b.seal| && |a.owner| == |b.owner|
    ensures ObjectBytes(a) == ObjectBytes(b) <==>
            a.codeHash == b.codeHash && a.seal == b.seal && a.satoshis == b.satoshis && a.owner == b.owner &&
            a.state == b.state
  {
    hide ObjectBytes;
    SameBytesIff(a, b);
    CutSame(a.codeHash, a.seal, b.codeHash, b.seal);
    CutSame(a.owner, a.state, b.owner, b.state);
  }

  /** How many of the hashed fields differ. */
  function Differences(a: Object, b: Object): nat {
    (if a.codeHash != b.codeHash then 1 else 0) + (if a.seal != b.seal then 1 else 0) +
    (if a.satoshis != b.satoshis then 1 else 0) + (if a.owner != b.owner then 1 else 0) +
    (if a.state != b.state then 1 else 0)
  }

  /** A change of any single field changes the bytes, whatever its length. */
  lemma OneFieldShows(a: Object, b: Object)
    requires a.id == b.id && a.satoshis < TWO_64 && b.satoshis < TWO_64 && Differences(a, b) == 1
    ensures ObjectBytes(a) != ObjectBytes(b)
  {
    hide U64;
    U64Width(a.satoshis);
    U64Width(b.satoshis);
    if |a.codeHash| == |b.codeHash| && |a.seal| == |b.seal| && |a.owner| == |b.owner| {
      SameWidths(a, b);
    } else {
      assert |ObjectBytes(a)| != |ObjectBytes(b)|;
    }
  }

  // ----- what a root says

  /** The leaves of a table, computed. */
  function LeafTable(H: Hash, objects: map<Str, Object>): (leaves: Leaves)
    requires Distinct(H, objects.Keys)
  {
    map id | id in objects && HashObject(H, objects[id]) != ZERO :: H(id) := HashObject(H, objects[id])
  }

  lemma LeavesComputed(H: Hash, objects: map<Str, Object>)
    requires Distinct(H, objects.Keys)
    ensures LeafTable(H, objects) == LeavesOf(H, objects)
    ensures forall id | id in objects ::
              LeafOf(LeafTable(H, objects), H(id)) ==
              if HashObject(H, objects[id]) == ZERO then None else Some(HashObject(H, objects[id]))
  {
    hide HashObject;
    forall k: Digest ensures LeafOf(LeafTable(H, objects), k) == LeafOf(LeavesOf(H, objects), k) {
    }
    SameLeaves(LeafTable(H, objects), LeavesOf(H, objects));
  }

  lemma NoLeaf(H: Hash, objects: map<Str, Object>, id: Str)
    requires Distinct(H, objects.Keys + {id}) && id !in objects
    ensures Distinct(H, objects.Keys) && LeafOf(LeafTable(H, objects), H(id)) == None
  {
    hide HashObject;
  }

  /**
   What two tables with one root prove of object `id`: that its bytes are the same in both, or a break of the hash.
   */
  function TableBreak(H: Hash, a: map<Str, Object>, b: map<Str, Object>, id: Str): Option<Evidence>
    requires Distinct(H, a.Keys) && Distinct(H, b.Keys) && (id in a || id in b)
  {
    var parted := Part(H, LeafTable(H, a), LeafTable(H, b), H(id), 0);
    if id !in a then Some(if HashObject(H, b[id]) == ZERO then ZeroPreimage(ObjectBytes(b[id])) else parted)
    else if id !in b then Some(if HashObject(H, a[id]) == ZERO then ZeroPreimage(ObjectBytes(a[id])) else parted)
    else if ObjectBytes(a[id]) == ObjectBytes(b[id]) then None
    else if HashObject(H, a[id]) == HashObject(H, b[id]) then Some(Collision(ObjectBytes(a[id]), ObjectBytes(b[id])))
    else Some(parted)
  }

  /** Two tables with one state root hold the same objects, byte for byte of what is hashed, or the hash breaks. */
  lemma RootBindsObjects(H: Hash, a: map<Str, Object>, b: map<Str, Object>, id: Str)
    requires Distinct(H, a.Keys + b.Keys) && RootOf(H, a) == RootOf(H, b) && (id in a || id in b)
    ensures Distinct(H, a.Keys) && Distinct(H, b.Keys)
    ensures match TableBreak(H, a, b, id)
            case Some(e) => Breaks(H, e)
            case None => id in a && id in b && ObjectBytes(a[id]) == ObjectBytes(b[id])
  {
    hide ObjectBytes, Part, LeavesOf, NodeAt, LeafTable, Distinct;
    Halves(H, a, b);
    LeavesComputed(H, a);
    LeavesComputed(H, b);
    if id !in a {
      Joined(H, a, b, id);
      NoLeaf(H, a, id);
    }
    if id !in b {
      Joined(H, b, a, id);
      NoLeaf(H, b, id);
    }
    if LeafOf(LeafTable(H, a), H(id)) != LeafOf(LeafTable(H, b), H(id)) {
      RootBindsLeaves(H, LeafTable(H, a), LeafTable(H, b), H(id));
    }
  }

  lemma Halves(H: Hash, a: map<Str, Object>, b: map<Str, Object>)
    requires Distinct(H, a.Keys + b.Keys)
    ensures Distinct(H, a.Keys) && Distinct(H, b.Keys) && Distinct(H, b.Keys + a.Keys)
  {
  }

  lemma Joined(H: Hash, a: map<Str, Object>, b: map<Str, Object>, id: Str)
    requires (Distinct(H, a.Keys + b.Keys) || Distinct(H, b.Keys + a.Keys)) && id in b
    ensures Distinct(H, a.Keys + {id})
  {
  }

  /** So a root that does not move when one field of an object does is a break of the hash. */
  lemma RootShowsField(H: Hash, a: map<Str, Object>, b: map<Str, Object>, id: Str)
    requires Distinct(H, a.Keys + b.Keys) && RootOf(H, a) == RootOf(H, b) && id in a && id in b
    requires a[id].id == b[id].id && a[id].satoshis < TWO_64 && b[id].satoshis < TWO_64
    requires Differences(a[id], b[id]) == 1
    ensures Distinct(H, a.Keys) && Distinct(H, b.Keys)
    ensures TableBreak(H, a, b, id).Some? && Breaks(H, TableBreak(H, a, b, id).value)
  {
    hide ObjectBytes, TableBreak, RootOf, Distinct, Differences;
    OneFieldShows(a[id], b[id]);
    RootBindsObjects(H, a, b, id);
  }

  /** In the other direction, tables whose objects have the same bytes have one root. */
  lemma SameBytesSameRoot(H: Hash, a: map<Str, Object>, b: map<Str, Object>)
    requires Distinct(H, a.Keys) && a.Keys == b.Keys && forall id | id in a :: ObjectBytes(a[id]) == ObjectBytes(b[id])
    ensures RootOf(H, a) == RootOf(H, b)
  {
    hide ObjectBytes, NodeAt;
    assert LeavesOf(H, a) == LeavesOf(H, b);
  }

  /** And since nothing marks where the owner ends, moving bytes between owner and state leaves the root as it is. */
  lemma RootMissesBoundary(H: Hash, objects: map<Str, Object>, id: Str, k: nat)
    requires Distinct(H, objects.Keys) && id in objects && k <= |objects[id].state|
    ensures var o := objects[id];
            RootOf(H, objects[id := o.(owner := o.owner + o.state[..k], state := o.state[k..])]) == RootOf(H, objects)
  {
    hide ObjectBytes, Distinct;
    var o := objects[id];
    var moved := o.(owner := o.owner + o.state[..k], state := o.state[k..]);
    BytesSplit(o);
    BytesSplit(moved);
    assert o.state == o.state[..k] + o.state[k..];
    assert Back(moved) == Back(o);
    SameBytesSameRoot(H, objects, objects[id := moved]);
  }
}
