/**
 Byte-string order and stable sorting by a byte-string key. A stable sort is determined by the
 groups of equal keys alone, which is what makes sorted digests independent of arrival order.
 */
module Order {
  import opened Bytes

  /** Lexicographic order on bytes, as Rust compares strings. */
  predicate LexLe(a: Bytes, b: Bytes) {
    a == [] || (b != [] && (a[0] < b[0] || (a[0] == b[0] && LexLe(a[1..], b[1..]))))
  }

  lemma {:induction false} LexTotal(a: Bytes, b: Bytes)
    ensures LexLe(a, b) || LexLe(b, a)
    ensures LexLe(a, a)
  {
    if a != [] {
      LexTotal(a[1..], if b == [] then [] else b[1..]);
    }
  }

  lemma {:induction false} LexAntisymmetric(a: Bytes, b: Bytes)
    requires LexLe(a, b) && LexLe(b, a)
    ensures a == b
  {
    if a != [] {
      LexAntisymmetric(a[1..], b[1..]);
      assert a == [a[0]] + a[1..] && b == [b[0]] + b[1..];
    }
  }

  lemma {:induction false} LexTransitive(a: Bytes, b: Bytes, c: Bytes)
    requires LexLe(a, b) && LexLe(b, c)
    ensures LexLe(a, c)
  {
    if a != [] && a[0] == b[0] == c[0] {
      LexTransitive(a[1..], b[1..], c[1..]);
    }
  }

  /** The first difference decides, and a prefix comes first. */
  lemma {:induction false} LexFirstDifference(p: Bytes, x: Byte, s: Bytes, y: Byte, t: Bytes)
    requires x < y
    ensures LexLe(p + [x] + s, p + [y] + t) && !LexLe(p + [y] + t, p + [x] + s)
    ensures LexLe(p, p + s)
  {
    if p != [] {
      LexFirstDifference(p[1..], x, s, y, t);
      assert (p + [x] + s)[1..] == p[1..] + [x] + s && (p + [y] + t)[1..] == p[1..] + [y] + t;
      assert (p + s)[1..] == p[1..] + s;
    }
  }

  ghost predicate SortedBy<T(!new)>(xs: seq<T>, key: T -> Bytes) {
    forall i, j | 0 <= i < j < |xs| :: LexLe(key(xs[i]), key(xs[j]))
  }

  /** The elements with key `k`, in order. */
  function Group<T>(xs: seq<T>, key: T -> Bytes, k: Bytes): seq<T> {
    if xs == [] then []
    else (if key(xs[0]) == k then [xs[0]] else []) + Group(xs[1..], key, k)
  }

  /** Stable insertion: in front of the first element that is not smaller. */
  function Insert<T>(x: T, xs: seq<T>, key: T -> Bytes): seq<T> {
    if xs == [] || LexLe(key(x), key(xs[0])) then [x] + xs else [xs[0]] + Insert(x, xs[1..], key)
  }

  /** `sort_by` on the key: stable, so equal keys keep their order. */
  function Sort<T>(xs: seq<T>, key: T -> Bytes): seq<T> {
    if xs == [] then [] else Insert(xs[0], Sort(xs[1..], key), key)
  }

  lemma {:induction false} InsertGroups<T>(x: T, xs: seq<T>, key: T -> Bytes, k: Bytes)
    ensures Group(Insert(x, xs, key), key, k) == Group([x] + xs, key, k)
    ensures multiset(Insert(x, xs, key)) == multiset([x] + xs)
  {
    LexTotal(key(x), key(x));
    assert ([x] + xs)[1..] == xs;
    if xs != [] && !LexLe(key(x), key(xs[0])) {
      InsertGroups(x, xs[1..], key, k);
      var rest := Insert(x, xs[1..], key);
      assert ([xs[0]] + rest)[1..] == rest;
      assert ([x] + xs[1..])[1..] == xs[1..];
      assert xs == [xs[0]] + xs[1..];
    }
  }

  lemma {:induction false} InsertSorted<T(!new)>(x: T, xs: seq<T>, key: T -> Bytes)
    requires SortedBy(xs, key)
    ensures SortedBy(Insert(x, xs, key), key)
  {
    hide LexLe;
    LexTotal(key(x), key(x));
    if xs == [] {
    } else if LexLe(key(x), key(xs[0])) {
      forall j | 0 <= j < |xs| ensures LexLe(key(x), key(xs[j])) {
        if j > 0 { LexTransitive(key(x), key(xs[0]), key(xs[j])); }
      }
      ConsSorted(x, xs, key);
    } else {
      LexTotal(key(x), key(xs[0]));
      InsertSorted(x, xs[1..], key);
      var rest := Insert(x, xs[1..], key);
      InsertGroups(x, xs[1..], key, key(x));
      forall j | 0 <= j < |rest| ensures LexLe(key(xs[0]), key(rest[j])) {
        assert rest[j] in multiset(rest);
        assert rest[j] in multiset([x] + xs[1..]);
        assert rest[j] == x || rest[j] in xs[1..];
      }
      ConsSorted(xs[0], rest, key);
    }
  }

  lemma ConsSorted<T(!new)>(x: T, xs: seq<T>, key: T -> Bytes)
    requires SortedBy(xs, key) && forall j | 0 <= j < |xs| :: LexLe(key(x), key(xs[j]))
    ensures SortedBy([x] + xs, key)
  {
    hide LexLe;
    var ys := [x] + xs;
    assert forall i | 0 < i < |ys| :: ys[i] == xs[i - 1];
  }

  lemma {:induction false} SortGroups<T(!new)>(xs: seq<T>, key: T -> Bytes, k: Bytes)
    ensures Group(Sort(xs, key), key, k) == Group(xs, key, k)
    ensures multiset(Sort(xs, key)) == multiset(xs)
    ensures SortedBy(Sort(xs, key), key)
  {
    if xs != [] {
      var rest := Sort(xs[1..], key);
      SortGroups(xs[1..], key, k);
      InsertGroups(xs[0], rest, key, k);
      InsertSorted(xs[0], rest, key);
      assert ([xs[0]] + rest)[1..] == rest;
      assert xs == [xs[0]] + xs[1..];
    }
  }

  lemma {:induction false} GroupMember<T>(xs: seq<T>, key: T -> Bytes, i: nat)
    requires i < |xs|
    ensures Group(xs, key, key(xs[i])) != []
  {
    if i > 0 { GroupMember(xs[1..], key, i - 1); }
  }

  lemma {:induction false} GroupHead<T>(xs: seq<T>, key: T -> Bytes, k: Bytes)
    requires Group(xs, key, k) != []
    ensures exists i :: 0 <= i < |xs| && key(xs[i]) == k
  {
    if key(xs[0]) != k {
      GroupHead(xs[1..], key, k);
      var i :| 0 <= i < |xs[1..]| && key(xs[1..][i]) == k;
      assert key(xs[i + 1]) == k;
    }
  }

  lemma SomeGroup<T>(xs: seq<T>, key: T -> Bytes)
    ensures xs == [] || exists k: Bytes :: Group(xs, key, k) != []
  {
    if xs != [] { GroupMember(xs, key, 0); }
  }

  /** A sorted list is determined by its groups of equal keys. */
  lemma {:induction false} GroupsDetermine<T(!new)>(xs: seq<T>, ys: seq<T>, key: T -> Bytes)
    requires SortedBy(xs, key) && SortedBy(ys, key)
    requires forall k: Bytes :: Group(xs, key, k) == Group(ys, key, k)
    ensures xs == ys
  {
    if xs == [] {
      SomeGroup(ys, key);
    } else {
      GroupMember(xs, key, 0);
      GroupHead(ys, key, key(xs[0]));
      GroupMember(ys, key, 0);
      GroupHead(xs, key, key(ys[0]));
      HeadIsLeast(xs, key, key(ys[0]));
      HeadIsLeast(ys, key, key(xs[0]));
      LexAntisymmetric(key(xs[0]), key(ys[0]));
      var k0 := key(xs[0]);
      assert Group(xs, key, k0)[0] == xs[0] && Group(ys, key, k0)[0] == ys[0];
      forall k: Bytes ensures Group(xs[1..], key, k) == Group(ys[1..], key, k) {
        assert Group(xs, key, k) == Group(ys, key, k);
        if k == k0 {
          assert Group(xs, key, k)[1..] == Group(xs[1..], key, k);
          assert Group(ys, key, k)[1..] == Group(ys[1..], key, k);
        } else {
          assert Group(xs, key, k) == [] + Group(xs[1..], key, k) == Group(xs[1..], key, k);
          assert Group(ys, key, k) == [] + Group(ys[1..], key, k) == Group(ys[1..], key, k);
        }
      }
      GroupsDetermine(xs[1..], ys[1..], key);
      assert xs == [xs[0]] + xs[1..] && ys == [ys[0]] + ys[1..];
    }
  }

  lemma HeadIsLeast<T(!new)>(xs: seq<T>, key: T -> Bytes, k: Bytes)
    requires SortedBy(xs, key) && exists i :: 0 <= i < |xs| && key(xs[i]) == k
    ensures xs != [] && LexLe(key(xs[0]), k)
  {
    var i :| 0 <= i < |xs| && key(xs[i]) == k;
    LexTotal(k, k);
  }

  lemma {:induction false} GroupAppend<T>(xs: seq<T>, ys: seq<T>, key: T -> Bytes, k: Bytes)
    ensures Group(xs + ys, key, k) == Group(xs, key, k) + Group(ys, key, k)
  {
    if xs == [] {
      assert xs + ys == ys;
    } else {
      GroupAppend(xs[1..], ys, key, k);
      var head := if key(xs[0]) == k then [xs[0]] else [];
      assert (xs + ys)[0] == xs[0] && (xs + ys)[1..] == xs[1..] + ys;
      assert head + (Group(xs[1..], key, k) + Group(ys, key, k)) == head + Group(xs[1..], key, k) + Group(ys, key, k);
    }
  }

  /** Sorting forgets everything but the groups. */
  lemma SortByGroups<T(!new)>(xs: seq<T>, ys: seq<T>, key: T -> Bytes)
    requires forall k: Bytes :: Group(xs, key, k) == Group(ys, key, k)
    ensures Sort(xs, key) == Sort(ys, key)
  {
    forall k: Bytes
      ensures Group(Sort(xs, key), key, k) == Group(Sort(ys, key), key, k)
    {
      SortGroups(xs, key, k);
      SortGroups(ys, key, k);
    }
    SortGroups(xs, key, []);
    SortGroups(ys, key, []);
    GroupsDetermine(Sort(xs, key), Sort(ys, key), key);
  }

  predicate DistinctKeys<T>(xs: seq<T>, key: T -> Bytes) {
    forall i, j :: 0 <= i < j < |xs| ==> key(xs[i]) != key(xs[j])
  }

  /** With distinct keys a group is its one member. */
  lemma {:induction false} GroupOfDistinct<T>(xs: seq<T>, key: T -> Bytes, i: nat)
    requires DistinctKeys(xs, key) && i < |xs|
    ensures Group(xs, key, key(xs[i])) == [xs[i]]
  {
    if i > 0 {
      GroupOfDistinct(xs[1..], key, i - 1);
    } else {
      GroupAbsent(xs[1..], key, key(xs[0]));
    }
  }

  lemma {:induction false} GroupAbsent<T>(xs: seq<T>, key: T -> Bytes, k: Bytes)
    requires forall i :: 0 <= i < |xs| ==> key(xs[i]) != k
    ensures Group(xs, key, k) == []
  {
    if xs != [] { GroupAbsent(xs[1..], key, k); }
  }

  /** Permutations with distinct keys sort alike. */
  lemma SortPermutation<T(!new)>(xs: seq<T>, ys: seq<T>, key: T -> Bytes)
    requires DistinctKeys(xs, key) && DistinctKeys(ys, key) && multiset(xs) == multiset(ys)
    ensures Sort(xs, key) == Sort(ys, key)
  {
    forall k: Bytes ensures Group(xs, key, k) == Group(ys, key, k) {
      if i :| 0 <= i < |xs| && key(xs[i]) == k {
        assert xs[i] in multiset(xs) && xs[i] in multiset(ys);
        var j :| 0 <= j < |ys| && ys[j] == xs[i];
        GroupOfDistinct(xs, key, i);
        GroupOfDistinct(ys, key, j);
      } else {
        forall j | 0 <= j < |ys| ensures key(ys[j]) != k {
          assert ys[j] in multiset(ys) && ys[j] in multiset(xs);
        }
        GroupAbsent(xs, key, k);
        GroupAbsent(ys, key, k);
      }
    }
    SortByGroups(xs, ys, key);
  }
}
