/**
 The block sync loop of `main.rs`: find the fork point, roll back, extend. Over any run of
 passes, with reorganisations between them, the tables equal a fresh scan of the last L1 view.
 */
module Sync {
  import opened Bytes
  import opened Ledger
  import opened Scanner
  import opened Reorg
  import opened Exactness

  /** The first height a node scans, from its optional `--start-height`. */
  function FirstHeight(start: Option<nat>): (first: nat)
    ensures first >= 1
  {
    if start.None? || start.value == 0 then 1 else start.value
  }

  function LastSynced(env: Env, start: Option<nat>, db: Db): nat {
    var last := if env.chain in db.lastBlock then db.lastBlock[env.chain] else 0;
    if last == 0 && start.Some? && start.value > 0 then start.value - 1 else last
  }

  predicate LocalBlock(env: Env, db: Db, h: nat) {
    (env.chain, h) in db.blocks
  }

  predicate Matches(env: Env, db: Db, l1: Chain, h: nat) {
    LocalBlock(env, db, h) && h < |l1| && db.blocks[(env.chain, h)].hash == l1[h].hash
  }

  /** The highest height from `h` down to 1 whose stored hash L1 still has, or 0; an L1 fetch error ends the search. */
  function Ancestor(env: Env, db: Db, l1: Chain, h: nat): nat {
    if h == 0 then 0
    else if Matches(env, db, l1, h) then h
    else if LocalBlock(env, db, h) && h >= |l1| then 0
    else Ancestor(env, db, l1, h - 1)
  }

  /** Blocks `lo` to `hi` of the L1 view scanned on top of `db`. */
  ghost function Extend(env: Env, db: Db, l1: Chain, lo: nat, hi: nat): Db
    requires WellFormedChain(l1) && hi < |l1|
  {
    if hi < lo || hi == 0 then db else ScanBlock(env, Extend(env, db, l1, lo, hi - 1), l1[hi], hi)
  }

  predicate Forked(env: Env, start: Option<nat>, db: Db, l1: Chain) {
    var last := LastSynced(env, start, db);
    last > 0 && LocalBlock(env, db, last) && last < |l1| && !Matches(env, db, l1, last)
  }

  /** One pass of the loop over a fixed L1 view. */
  ghost predicate Pass(env: Env, start: Option<nat>, db: Db, l1: Chain, db': Db)
    requires WellFormedChain(l1) && l1 != []
  {
    var last, tip := LastSynced(env, start, db), |l1| - 1;
    if Forked(env, start, db, l1) then
      var a := Ancestor(env, db, l1, last - 1);
      if a == 0 then db' == db
      else exists mid: Db :: RolledBack(db, env.chain, a, mid) && db' == Extend(env, mid, l1, a + 1, tip)
    else db' == Extend(env, db, l1, last + 1, tip)
  }

  lemma PassStuck(env: Env, start: Option<nat>, db: Db, l1: Chain)
    requires WellFormedChain(l1) && l1 != [] && Forked(env, start, db, l1)
    requires Ancestor(env, db, l1, LastSynced(env, start, db) - 1) == 0
    ensures Pass(env, start, db, l1, db)
  {
  }

  lemma PassByFork(env: Env, start: Option<nat>, db: Db, l1: Chain, a: nat, mid: Db, db': Db)
    requires WellFormedChain(l1) && l1 != [] && Forked(env, start, db, l1)
    requires Ancestor(env, db, l1, LastSynced(env, start, db) - 1) == a > 0
    requires RolledBack(db, env.chain, a, mid) && db' == Extend(env, mid, l1, a + 1, |l1| - 1)
    ensures Pass(env, start, db, l1, db')
  {
    hide WellFormedChain, Extend, Ancestor, LastSynced, RolledBack, Forked;
  }

  lemma PassOnward(env: Env, start: Option<nat>, db: Db, l1: Chain, db': Db)
    requires WellFormedChain(l1) && l1 != [] && !Forked(env, start, db, l1)
    requires db' == Extend(env, db, l1, LastSynced(env, start, db) + 1, |l1| - 1)
    ensures Pass(env, start, db, l1, db')
  {
    hide WellFormedChain, Extend, Ancestor, LastSynced, RolledBack;
  }

  // ----- scans and prefixes

  lemma {:induction false} ScanPrefix(env: Env, first: nat, a: Chain, b: Chain, n: nat)
    requires WellFormedChain(a) && WellFormedChain(b) && n < |a| && n < |b| && a[..n + 1] == b[..n + 1]
    ensures Scan(env, first, a, n) == Scan(env, first, b, n)
  {
    hide ScanBlock;
    assert a[n] == a[..n + 1][n] == b[..n + 1][n] == b[n];
    if n >= first && n > 0 {
      assert a[..n] == a[..n + 1][..n] == b[..n + 1][..n] == b[..n];
      ScanPrefix(env, first, a, b, n - 1);
    }
  }

  lemma {:induction false} ExtendScan(env: Env, first: nat, l1: Chain, k: nat, n: nat)
    requires WellFormedChain(l1) && n < |l1| && k <= n && k + 1 >= first
    ensures Extend(env, Scan(env, first, l1, k), l1, k + 1, n) == Scan(env, first, l1, n)
    decreases n
  {
    hide ScanBlock;
    if k < n { ExtendScan(env, first, l1, k, n - 1); }
  }

  lemma {:induction false} ExtendEmpty(env: Env, first: nat, l1: Chain, n: nat)
    requires WellFormedChain(l1) && n < |l1|
    ensures Extend(env, EMPTY, l1, first, n) == Scan(env, first, l1, n)
  {
    hide ScanBlock;
    if n > 0 { ExtendEmpty(env, first, l1, n - 1); }
  }

  /** Each height's stored block is the L1 block there with the root of the objects scanned so far. */
  lemma {:induction false} StoredBlocks(env: Env, first: nat, l1: Chain, n: nat, h: nat)
    requires WellFormedChain(l1) && n < |l1| && first >= 1
    ensures LocalBlock(env, Scan(env, first, l1, n), h) <==> first <= h <= n
    ensures first <= h <= n ==>
              Scan(env, first, l1, n).blocks[(env.chain, h)] ==
                Block(l1[h].hash, RootOf(env.H, Scan(env, first, l1, h).objects))
  {
    hide ScanTxs, RootOf;
    if n >= first {
      StoredBlocks(env, first, l1, n - 1, h);
      TxsLeaveBlocks(env, Scan(env, first, l1, n - 1), l1[n].txs, n);
      CloseKeepsObjects(env, ScanTxs(env, Scan(env, first, l1, n - 1), l1[n].txs, n), l1[n].hash, n);
    }
  }

  lemma CloseKeepsObjects(env: Env, db: Db, hash: Str, h: nat)
    ensures CloseBlock(env, db, hash, h).objects == db.objects
  {
  }

  lemma LastSyncedOf(env: Env, start: Option<nat>, l1: Chain, n: nat)
    requires WellFormedChain(l1) && n < |l1|
    ensures var first := FirstHeight(start);
            LastSynced(env, start, Scan(env, first, l1, n)) == if n < first then first - 1 else n
  {
    LastBlockOf(env, FirstHeight(start), l1, n);
  }

  // ----- one pass

  /**
   The view moves from `was` to `l1`: both are chains, a block hash fixes everything below it, and the first scanned
   block stays.
   */
  ghost predicate Follows(first: nat, was: Chain, l1: Chain) {
    && (forall h | 0 <= h < |was| && h < |l1| && was[h].hash == l1[h].hash :: was[..h + 1] == l1[..h + 1])
    && (first < |was| ==> |was| <= |l1| && was[first].hash == l1[first].hash)
  }

  lemma FollowsAt(first: nat, was: Chain, l1: Chain, h: nat)
    requires Follows(first, was, l1)
    ensures h < |was| && h < |l1| && was[h].hash == l1[h].hash ==> was[..h + 1] == l1[..h + 1]
    ensures first < |was| ==> |was| <= |l1| && was[first].hash == l1[first].hash
  {
  }

  /** The search finds a common block at or above the first scanned one. */
  lemma {:induction false} AncestorFound(env: Env, first: nat, was: Chain, l1: Chain, h: nat)
    requires WellFormedChain(was) && first >= 1 && first <= h < |was| && Follows(first, was, l1)
    ensures var a := Ancestor(env, Scan(env, first, was, |was| - 1), l1, h);
            first <= a <= h && was[a].hash == l1[a].hash
  {
    hide Scan, Follows, WellFormedChain, RootOf;
    FollowsAt(first, was, l1, first);
    StoredBlocks(env, first, was, |was| - 1, h);
    if h > first { AncestorFound(env, first, was, l1, h - 1); }
  }

  lemma PassFromScan(env: Env, start: Option<nat>, was: Chain, l1: Chain, db': Db)
    requires WellFormedChain(was) && WellFormedChain(l1) && was != [] && l1 != []
    requires Follows(FirstHeight(start), was, l1)
    requires FreshChain(env, FirstHeight(start), was, |was| - 1) && Undoable(env, FirstHeight(start), was, |was| - 1)
    requires Pass(env, start, Scan(env, FirstHeight(start), was, |was| - 1), l1, db')
    ensures db' == Scan(env, FirstHeight(start), l1, |l1| - 1)
  {
    hide *;
    var first, n, tip := FirstHeight(start), |was| - 1, |l1| - 1;
    var db := Scan(env, first, was, n);
    LastSyncedOf(env, start, was, n);
    if n < first {
      StoredBlocks(env, first, was, n, first - 1);
      ScanNothing(env, first, was, n);
      FirstPass(env, start, l1, db');
    } else if Forked(env, start, db, l1) {
      PassForked(env, start, was, l1, db, db');
    } else {
      PassStraight(env, start, was, l1, db, db');
    }
  }

  /** Chains that agree on a block hash scan alike up to it. */
  lemma ScanAgrees(env: Env, first: nat, was: Chain, l1: Chain, h: nat)
    requires WellFormedChain(was) && WellFormedChain(l1) && Follows(first, was, l1)
    requires h < |was| && h < |l1| && was[h].hash == l1[h].hash
    ensures Scan(env, first, was, h) == Scan(env, first, l1, h)
  {
    hide Scan;
    ScanPrefix(env, first, was, l1, h);
  }

  lemma PassStraight(env: Env, start: Option<nat>, was: Chain, l1: Chain, db: Db, db': Db)
    requires WellFormedChain(was) && WellFormedChain(l1) && was != [] && l1 != []
    requires FirstHeight(start) < |was| && Follows(FirstHeight(start), was, l1)
    requires db == Scan(env, FirstHeight(start), was, |was| - 1) && LastSynced(env, start, db) == |was| - 1
    requires !Forked(env, start, db, l1) && Pass(env, start, db, l1, db')
    ensures db' == Scan(env, FirstHeight(start), l1, |l1| - 1)
  {
    hide *;
    var first, n, tip := FirstHeight(start), |was| - 1, |l1| - 1;
    FollowsAt(first, was, l1, n);
    StoredBlocks(env, first, was, n, n);
    StraightMatches(env, start, db, l1, db', n, was[n].hash);
    ScanAgrees(env, first, was, l1, n);
    ExtendScan(env, first, l1, n, tip);
  }

  lemma StraightMatches(env: Env, start: Option<nat>, db: Db, l1: Chain, db': Db, last: nat, hash: Str)
    requires WellFormedChain(l1) && 0 < last < |l1| && LastSynced(env, start, db) == last
    requires LocalBlock(env, db, last) && db.blocks[(env.chain, last)].hash == hash
    requires !Forked(env, start, db, l1) && Pass(env, start, db, l1, db')
    ensures hash == l1[last].hash && db' == Extend(env, db, l1, last + 1, |l1| - 1)
  {
    hide WellFormedChain, Extend, Ancestor, LastSynced;
  }

  lemma ForkedMatches(env: Env, start: Option<nat>, db: Db, l1: Chain, db': Db, last: nat, a: nat) returns (mid: Db)
    requires WellFormedChain(l1) && 0 < last && LastSynced(env, start, db) == last
    requires Forked(env, start, db, l1) && Pass(env, start, db, l1, db') && a == Ancestor(env, db, l1, last - 1) > 0
    ensures RolledBack(db, env.chain, a, mid) && db' == Extend(env, mid, l1, a + 1, |l1| - 1)
  {
    hide WellFormedChain, Extend, Ancestor, LastSynced, RolledBack;
    mid :| RolledBack(db, env.chain, a, mid) && db' == Extend(env, mid, l1, a + 1, |l1| - 1);
  }

  lemma PassForked(env: Env, start: Option<nat>, was: Chain, l1: Chain, db: Db, db': Db)
    requires WellFormedChain(was) && WellFormedChain(l1) && was != [] && l1 != []
    requires FreshChain(env, FirstHeight(start), was, |was| - 1) && Undoable(env, FirstHeight(start), was, |was| - 1)
    requires FirstHeight(start) < |was| && Follows(FirstHeight(start), was, l1)
    requires db == Scan(env, FirstHeight(start), was, |was| - 1) && LastSynced(env, start, db) == |was| - 1
    requires Forked(env, start, db, l1) && Pass(env, start, db, l1, db')
    ensures db' == Scan(env, FirstHeight(start), l1, |l1| - 1)
  {
    hide *;
    var first, n, tip := FirstHeight(start), |was| - 1, |l1| - 1;
    FollowsAt(first, was, l1, n);
    StoredBlocks(env, first, was, n, n);
    ForkIsAbove(env, start, db, l1, n, first, was[n].hash);
    AncestorFound(env, first, was, l1, n - 1);
    var a := Ancestor(env, db, l1, n - 1);
    var mid := ForkedMatches(env, start, db, l1, db', n, a);
    UndoableExact(env, first, was, a, n, mid);
    ScanAgrees(env, first, was, l1, a);
    ExtendScan(env, first, l1, a, tip);
  }

  lemma ForkIsAbove(env: Env, start: Option<nat>, db: Db, l1: Chain, last: nat, first: nat, hash: Str)
    requires Forked(env, start, db, l1) && LastSynced(env, start, db) == last && first <= last && first < |l1|
    requires db.blocks[(env.chain, last)].hash == hash && (first == last ==> hash == l1[first].hash)
    ensures first < last
  {
  }

  lemma ScanNothing(env: Env, first: nat, l1: Chain, n: nat)
    requires WellFormedChain(l1) && n < |l1| && n < first
    ensures Scan(env, first, l1, n) == EMPTY
  {
  }

  // ----- any run of passes

  /** The tables reached from nothing by one pass per view. */
  ghost predicate Synced(env: Env, start: Option<nat>, views: seq<Chain>, db: Db)
    requires forall i | 0 <= i < |views| :: WellFormedChain(views[i]) && views[i] != []
  {
    if views == [] then db == EMPTY
    else
      var init, l1 := views[..|views| - 1], views[|views| - 1];
      exists prev: Db :: Synced(env, start, init, prev) && Pass(env, start, prev, l1, db)
  }

  /** Each view follows the one before; only those that a later pass may roll back need to be fresh and undoable. */
  ghost predicate GoodViews(env: Env, start: Option<nat>, views: seq<Chain>) {
    var first := FirstHeight(start);
    && (forall i | 0 <= i < |views| :: WellFormedChain(views[i]) && views[i] != [])
    && (forall i | 0 <= i < |views| - 1 ::
          FreshChain(env, first, views[i], |views[i]| - 1) && Undoable(env, first, views[i], |views[i]| - 1))
    && (forall i | 0 < i < |views| :: Follows(first, views[i - 1], views[i]))
  }

  /** Whatever forks the passes went through, the tables are those of a fresh scan of the last view. */
  lemma {:induction false} SyncEqualsFreshScan(env: Env, start: Option<nat>, views: seq<Chain>, db: Db)
    requires views != [] && GoodViews(env, start, views) && Synced(env, start, views, db)
    ensures var l1 := views[|views| - 1]; db == Scan(env, FirstHeight(start), l1, |l1| - 1)
  {
    hide Scan, FreshChain, Undoable, Pass, Follows;
    var init, l1 := views[..|views| - 1], views[|views| - 1];
    var prev: Db :| Synced(env, start, init, prev) && Pass(env, start, prev, l1, db);
    if init == [] {
      FirstPass(env, start, l1, db);
    } else {
      var was := init[|init| - 1];
      assert was == views[|views| - 2] && Follows(FirstHeight(start), was, l1);
      assert GoodViews(env, start, init);
      SyncEqualsFreshScan(env, start, init, prev);
      PassFromScan(env, start, was, l1, db);
    }
  }

  /** Exactly the heights from the configured start to the tip have a block, each with the L1 hash and its own root. */
  lemma StoredFromStart(env: Env, start: Option<nat>, views: seq<Chain>, db: Db, h: nat)
    requires views != [] && GoodViews(env, start, views) && Synced(env, start, views, db)
    ensures var l1 := views[|views| - 1];
            && (LocalBlock(env, db, h) <==> 1 <= h < |l1| && (start.Some? ==> start.value <= h))
            && (LocalBlock(env, db, h) ==>
                  db.blocks[(env.chain, h)] ==
                  Block(l1[h].hash, RootOf(env.H, Scan(env, FirstHeight(start), l1, h).objects)))
  {
    hide Scan, Synced, RootOf;
    var l1 := views[|views| - 1];
    SyncEqualsFreshScan(env, start, views, db);
    StoredBlocks(env, FirstHeight(start), l1, |l1| - 1, h);
  }

  lemma FirstPass(env: Env, start: Option<nat>, l1: Chain, db: Db)
    requires WellFormedChain(l1) && l1 != [] && Pass(env, start, EMPTY, l1, db)
    ensures db == Scan(env, FirstHeight(start), l1, |l1| - 1)
  {
    hide Scan, Extend;
    ExtendEmpty(env, FirstHeight(start), l1, |l1| - 1);
  }
}
